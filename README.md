# TinyFrame in Dafny

A model of TinyFrame, a small framing layer for byte streams. It models
`TinyFrame.c` with its configuration as parameters. A frame is

    [SOF] ID LEN TYPE [HEAD_CKSUM] DATA [DATA_CKSUM]

- ID, LEN and TYPE are big-endian, each at the width of its C type.
- Both checksums are the configured XOR-8, CRC-16 or CRC-32, or absent.
- The receiving side is a byte-at-a-time state machine (`TF_AcceptChar`). It hands complete frames to listeners registered by frame ID, by frame type, or for every frame. The first listener that returns true consumes the frame.
- The sending side (`TF_Compose` and the `TF_Send`/`TF_Respond` family) serialises a frame into a buffer and picks frame IDs from a counter. A peer bit keeps IDs from the two ends of a link apart.

The project has eight modules:

- `Wire`: bytes, big-endian encoding, and `COLLECT_NUMBER`'s shift-and-truncate accumulation.
- `Bits`: bitwise AND, OR and XOR on naturals.
- `Checksum`: the four checksum modes. The CRC tables are constant data.
- `Protocol`: the configuration from `TinyFrame.h`, ID generation, and the bytes of a frame as a pure function.
- `Parser`: the receive state machine as a pure function `Step` on a `Parser` value, and `Run` over a byte string.
- `ParserProofs`: what a run of the parser does with composed frames, corrupt frames, oversized frames and idle ticks.
- `Registry`: the three listener tables and dispatch, as values.
- `Framing`: the `TinyFrame` class, whose fields are those of `struct TinyFrameStruct`. Its methods update them in place, as the C functions update `tf`. Each method is proved against the value-level functions above.

The listener callbacks are foreign code. A callback is a `Handle`. The oracle `claims(h, frame)` is a parameter of the session and says what the callback returns. The session's `trace` field records, for every frame dispatched, the listeners called in order. `TF_WriteImpl` is not part of the model: the send methods return the bytes they would write.

## Model

| member | source | states |
|---|---|---|
| Checksum.Reset | TinyFrame.c:74-192 | CKSUM_RESET gives an accumulator within the checksum type (all ones for CRC-32, zero otherwise) |
| Checksum.Add | TinyFrame.c:74-192 | CKSUM_ADD of one byte keeps the accumulator within the width of TF_CKSUM in every mode |
| Checksum.Finalize | TinyFrame.c:74-192 | CKSUM_FINALIZE (complement for XOR-8 and CRC-32) stays within the width of TF_CKSUM |
| Checksum.Crc16Byte | TinyFrame.c:126-129 | crc16_byte maps a 16-bit accumulator and a byte to a 16-bit accumulator |
| Checksum.Crc32Byte | TinyFrame.c:183-186 | crc32_byte maps a 32-bit accumulator and a byte to a 32-bit accumulator |
| Checksum.AddAll | TinyFrame.c:74-192 | feeding a string of bytes keeps the accumulator within the checksum width |
| Checksum.AddAllAppend | TinyFrame.c:74-192 | checksumming a concatenation is checksumming the first part, then carrying the accumulator into the second |
| Checksum.AddAllSnoc | TinyFrame.c:74-192 | one more byte at the end is one more CKSUM_ADD on the running accumulator |
| Wire.ValueOfBigEndian | TinyFrame.c:379-380 | collecting the big-endian bytes of a value below 256^w gives back that value |
| Wire.CollectBigEndian | TinyFrame.c:379-380 | COLLECT_NUMBER over the bytes TF_Compose writes recovers the number: decode after encode is the identity |
| Wire.CollectAllAppend | TinyFrame.c:379-380 | collecting a concatenation is collecting the second part from the value of the first |
| Wire.CollectAllIsValue | TinyFrame.c:379-380 | shifting bytes into a field gives the big-endian value of the old field followed by the bytes, truncated to the width of the field's C type |
| Protocol.AutoId | TinyFrame.c:525-533 | an automatic ID is `next_id & TF_ID_MASK` with TF_ID_PEERBIT OR-ed in iff the peer bit is set, and always fits a TF_ID |
| Protocol.NextId | TinyFrame.c:529 | `next_id++` wraps at the width of TF_ID |
| Protocol.IdPartition | TinyFrame.c:525-533 | two peers with opposite peer bits never pick the same automatic ID, whatever their counters |
| Protocol.FrameBytes | TinyFrame.c:551-582 | the frame starts with the SOF byte when configured, holds the payload verbatim right after the header and its checksum field, and ends after the header checksum when the payload is empty |
| Protocol.FrameLength | TinyFrame.c:539-584 | the length TF_Compose returns is SOF + ID + LEN + TYPE widths, plus a header checksum iff one is configured, plus the payload, plus a payload checksum iff configured and the payload is not empty; it fits the send buffer |
| Parser.InitialParser | TinyFrame.c:197-203 | the zeroed parser after TF_Init is in SOF and satisfies the parser invariant |
| Parser.Timeout | TinyFrame.c:372-376 | the parser goes back to SOF iff the idle counter has reached TF_PARSER_TIMEOUT_TICKS, and the counter is zero afterwards |
| Parser.OversizedTests | TinyFrame.c:450 | `Oversized` (the corrected `tf.len > TF_MAX_PAYLOAD`) implies `OversizedAsWritten` (the `>=` as written), and the two differ exactly at a length of TF_MAX_PAYLOAD |
| Parser.BeginPayload | TinyFrame.c:438-453 | the accepted header with the corrected length test: LEN 0 delivers the empty frame at once and returns to SOF; otherwise DATA starts at index 0 with the payload checksum reset, discarding iff the length is oversized (or the frame was already discarded) |
| Parser.BeginPayloadAsWritten | TinyFrame.c:438-453 | as written, a frame of exactly TF_MAX_PAYLOAD bytes enters DATA with `discard_data` set |
| Parser.TypeDone | TinyFrame.c:416-424 | the corrected end of TYPE (Findings row 2): with a checksum it moves to HEAD_CKSUM and delivers nothing; without one an empty frame is delivered at once and an oversized length is discarded |
| Parser.TypeDoneAsWritten | TinyFrame.c:416-424 | as written, the end of TYPE delivers nothing; without a checksum it enters DATA at index 0 with `discard_data` left as it was |
| Parser.HeaderDone | TinyFrame.c:430-453 | a header checksum that does not match returns to SOF and delivers nothing; a matching one with LEN 0 delivers the empty frame and returns to SOF |
| Parser.DataDone | TinyFrame.c:465-476 | the last payload byte delivers the frame (ID, type and the first LEN bytes of the buffer) and returns to SOF iff there is no checksum and the frame is kept (the kept test is the correction of Findings row 2); with a checksum it starts collecting the payload checksum |
| Parser.DataCksumDone | TinyFrame.c:480-488 | after the payload checksum field the parser is in SOF, and the frame (ID, type and the first LEN bytes) is delivered iff it is kept and the finalised checksum equals the field |
| Parser.ConsumeSof | TinyFrame.c:389-393 | in SOF a byte starts a frame (moves to ID) iff it is the SOF byte; no frame is completed and the invariant is kept |
| Parser.ConsumeId | TinyFrame.c:395-402 | collecting the ID keeps the invariant and the idle counter, and completes no frame |
| Parser.ConsumeLen | TinyFrame.c:404-411 | collecting LEN keeps the invariant and the idle counter, and completes no frame |
| Parser.ConsumeDataAsWritten | TinyFrame.c:457-477 | DATA as written keeps the buffer size; the store index it reports is not bounded by the buffer |
| Parser.FeedDataAsWritten | TinyFrame.c:457-477 | payload bytes fed as written, while the parser stays in DATA, keep the buffer size |
| Parser.ConsumeType | TinyFrame.c:413-426 | the TYPE state with the corrected end of TYPE (Findings row 2) keeps the invariant; a frame it completes (empty, without a checksum) leaves the parser in SOF |
| Parser.ConsumeHeadCksum | TinyFrame.c:428-455 | the header checksum byte keeps the invariant: after it the write index is below a length that fits the buffer, or the frame is discarded |
| Parser.ConsumeData | TinyFrame.c:457-477 | storing a payload byte keeps the invariant, so the store `tf.data[tf.rxi++]` is in bounds once the header was accepted by the corrected machine (Findings row 2) |
| Parser.ConsumeDataCksum | TinyFrame.c:479-489 | the payload checksum byte keeps the invariant; a delivered frame leaves the parser in SOF |
| Parser.Consume | TinyFrame.c:378-490 | every branch of the corrected switch (the end of TYPE and the length test as corrected in Findings rows 1 and 2) keeps the invariant and the idle counter; a delivered payload fits TF_MAX_PAYLOAD |
| Parser.Step | TinyFrame.c:370-491 | the corrected TF_AcceptChar (Findings rows 1 and 2) keeps the invariant (so every store is in bounds), zeroes the idle counter, and leaves the parser in SOF after delivering a frame of at most TF_MAX_PAYLOAD bytes |
| Parser.Tick | TinyFrame.c:650-655 | TF_Tick increments the idle counter but never past TF_PARSER_TIMEOUT_TICKS, keeping the invariant |
| Parser.Run | TinyFrame.c:342-348 | TF_Accept over the corrected TF_AcceptChar keeps the invariant over any byte string, and every frame it delivers fits TF_MAX_PAYLOAD |
| ParserProofs.RunAppend | TinyFrame.c:342-348 | accepting two buffers one after the other is accepting their concatenation |
| ParserProofs.IdPhase | TinyFrame.c:395-402 | the ID bytes move the parser from ID to LEN with the big-endian value collected and the bytes added to the header checksum |
| ParserProofs.LenPhase | TinyFrame.c:404-411 | the LEN bytes move the parser from LEN to TYPE with the length collected and checksummed |
| ParserProofs.TypePhase | TinyFrame.c:413-426 | the TYPE bytes are collected big-endian and checksummed, and then the end of TYPE is handled once |
| ParserProofs.HeadCksumPhase | TinyFrame.c:428-455 | the header checksum field is collected and then compared, dropping or accepting the header |
| ParserProofs.StorePhase | TinyFrame.c:457-477 | the payload bytes are stored in place at indices 0 to len-1 and checksummed in order |
| ParserProofs.DiscardPhase | TinyFrame.c:457-460 | a discarded payload is counted byte by byte and nothing is stored |
| ParserProofs.DataCksumPhase | TinyFrame.c:479-489 | the payload checksum field is collected and compared; the frame is delivered only if it is kept and matches |
| ParserProofs.HeaderRun | TinyFrame.c:389-426 | from SOF, or after the timeout, the header bytes leave the parser holding exactly the ID, LEN and TYPE written, with their checksum |
| ParserProofs.CheckedHeaderRun | TinyFrame.c:428-436 | a header with its checksum field: a matching field starts the payload, a different one returns to SOF |
| ParserProofs.AcceptedHeader | TinyFrame.c:428-455 | a composed header with its checksum is accepted: an empty frame is delivered at once, otherwise the payload starts, discarding iff the length is oversized |
| ParserProofs.BodyRun | TinyFrame.c:457-489 | a payload and its checksum field are delivered iff the frame is not being discarded and the field (when configured) matches the payload's checksum; the parser ends in SOF either way |
| ParserProofs.FrameRun | TinyFrame.c:370-491 | a whole frame with any payload and checksum field: delivered exactly when kept, and the parser is back in SOF |
| ParserProofs.RoundTrip | TinyFrame.c:370-491 | the bytes TF_Compose writes for a frame, fed to TF_Accept from SOF or after the timeout, deliver exactly that frame (ID, type and payload) once and leave the parser in SOF, for every payload up to TF_MAX_PAYLOAD bytes including the empty one |
| ParserProofs.HeaderMismatchDropped | TinyFrame.c:428-436 | a header checksum field that does not match the header returns the parser to SOF and delivers nothing |
| ParserProofs.PayloadMismatchDropped | TinyFrame.c:479-489 | a payload checksum field that does not match the payload delivers nothing and returns to SOF |
| ParserProofs.OversizedDropped | TinyFrame.c:450-463 | a valid header declaring more than TF_MAX_PAYLOAD bytes makes the parser consume exactly that many bytes plus the checksum field, whatever they are, deliver nothing and return to SOF |
| ParserProofs.MaxFrameDroppedAsWritten | TinyFrame.c:450-453 | as written, in the checksummed modes, a header declaring exactly TF_MAX_PAYLOAD bytes sets `discard_data`, so that frame is never delivered |
| ParserProofs.FeedDataAsWrittenCounts | TinyFrame.c:457-465 | as written, while no byte completes the frame, each payload byte advances the store index by one and the parser stays in DATA |
| ParserProofs.OverrunAsWritten | TinyFrame.c:416-418 | as written, in checksum mode 0 with LEN 0 or LEN above TF_MAX_PAYLOAD, entering DATA breaks the invariant that bounds the stores, the frame is not complete after TF_MAX_PAYLOAD payload bytes and the next byte is stored at index TF_MAX_PAYLOAD, past the end of `tf.data` |
| ParserProofs.Ticks | TinyFrame.c:650-655 | any number of TF_Tick calls keeps the parser invariant |
| ParserProofs.TicksSaturate | TinyFrame.c:650-655 | n ticks add n to the idle counter, saturating at the threshold, and change nothing else |
| ParserProofs.TimeoutResync | TinyFrame.c:370-376 | whatever partial frame the parser holds, after TF_PARSER_TIMEOUT_TICKS ticks a freshly composed frame is delivered exactly |
| Registry.AddKeyedSpec | TinyFrame.c:207-237 | adding an ID or type listener succeeds iff a slot is free; it fills the lowest free slot and no other, raises the count to i+1 only if i >= count, keeps the high-water invariant, and changes nothing on failure |
| Registry.AddGenericSpec | TinyFrame.c:239-252 | the same for the generic table |
| Registry.RemoveKeyedSpec | TinyFrame.c:254-284 | removing succeeds iff a listener for the key is registered; it nulls only the first matching slot below the count, lowers the count only when that slot was count-1, and changes nothing on failure |
| Registry.RemoveGenericSpec | TinyFrame.c:286-299 | removing a generic callback succeeds iff a slot below the count holds it; only the first such slot is nulled |
| Registry.AddThenRemove | TinyFrame.c:207-284 | adding a listener for an unused key and then removing that key leaves every slot's callback as before |
| Registry.MatchingComplete | TinyFrame.c:313-319 | every listener registered for a key, in whatever slot, is among those offered the frame |
| Registry.Dispatch | TinyFrame.c:302-338 | the listeners called are a prefix of the candidates; none but the last consumed the frame, and the calls stop early only right after a listener consumed it |
| Registry.DispatchAppend | TinyFrame.c:302-338 | when an earlier group of candidates holds a listener that consumes the frame, no later candidate is called; otherwise that whole group is called first |
| Registry.DispatchOrder | TinyFrame.c:302-338 | ID listeners first, then type listeners only if no ID listener consumed the frame, then generic listeners only if no type listener did |
| Registry.DeliverAll | TinyFrame.c:342-348 | the deliveries of a run of frames are the deliveries of each frame in turn |
| Registry.DeliverAllAppend | TinyFrame.c:342-348 | delivering two runs of frames is delivering the first and then the second |
| Framing.TinyFrame.constructor | TinyFrame.c:197-203 | TF_Init: parser in SOF with zeroed fields, ID counter zero, every listener slot empty with count zero, the peer bit stored |
| Framing.TinyFrame.AddIdListener | TinyFrame.c:207-221 | the slot loop updates the ID table in place exactly as `AddKeyed` does and keeps the session invariant |
| Framing.TinyFrame.AddTypeListener | TinyFrame.c:223-237 | the same on the type table |
| Framing.TinyFrame.AddGenericListener | TinyFrame.c:239-252 | the slot loop updates the generic table in place exactly as `AddGeneric` does |
| Framing.TinyFrame.RemoveIdListener | TinyFrame.c:254-268 | the slot loop updates the ID table exactly as `RemoveKeyed` does |
| Framing.TinyFrame.RemoveTypeListener | TinyFrame.c:270-284 | the same on the type table |
| Framing.TinyFrame.RemoveGenericListener | TinyFrame.c:286-299 | the slot loop updates the generic table exactly as `RemoveGeneric` does |
| Framing.TinyFrame.HandleReceivedMessage | TinyFrame.c:302-338 | the three listener loops call exactly the listeners `Deliver` names, in order, and record that one delivery |
| Framing.AddSlot | TinyFrame.c:210-220 | the in-place loop over an ID or type slot array computes `AddKeyed` |
| Framing.RemoveSlot | TinyFrame.c:257-267 | the in-place loop over a slot array computes `RemoveKeyed` |
| Framing.CallKeyed | TinyFrame.c:313-328 | one listener loop calls the matching listeners in slot order until one returns true, and reports whether one did |
| Framing.CallLive | TinyFrame.c:331-337 | the generic loop calls the non-null listeners below the count until one returns true |
| Framing.TinyFrame.ResetParser | TinyFrame.c:350-353 | TF_ResetParser changes only the state, back to SOF |
| Framing.TinyFrame.ParsBeginFrame | TinyFrame.c:356-368 | TF_ParsBeginFrame restarts the header checksum, seeded with SOF when configured, and starts collecting the ID |
| Framing.TinyFrame.AcceptChar | TinyFrame.c:370-491 | the in-place update of the parser fields and `tf.data` by the corrected TF_AcceptChar (Findings rows 1 and 2) is `Step`, the session invariant is kept, and the frame delivered (if any) is dispatched to the listeners |
| Framing.TinyFrame.Resync | TinyFrame.c:372-386 | the timeout check and, without a SOF byte, the start of a new frame: the parser fields become `Timeout` and then `BeginFrame` exactly as `Step` does, keeping the session invariant |
| Framing.TinyFrame.Consume | TinyFrame.c:388-490 | the switch updates the parser fields and `tf.data` in place as `Consume` does, keeps the session invariant, and dispatches the frame it completes |
| Framing.TinyFrame.AcceptSof | TinyFrame.c:389-393 | the SOF case updates the fields as `ConsumeSof` does, keeping the session invariant |
| Framing.TinyFrame.AcceptId | TinyFrame.c:395-402 | the ID case updates the fields as `ConsumeId` does, keeping the session invariant |
| Framing.TinyFrame.AcceptLen | TinyFrame.c:404-411 | the LEN case updates the fields as `ConsumeLen` does, keeping the session invariant |
| Framing.TinyFrame.AcceptType | TinyFrame.c:413-426 | the TYPE case updates the fields as `ConsumeType` (the corrected end of TYPE) does, keeps the session invariant, and dispatches an empty frame it completes |
| Framing.TinyFrame.LastType | TinyFrame.c:415-424 | the last TYPE byte: the same as `AcceptType` when COLLECT_NUMBER completes the field |
| Framing.TinyFrame.AcceptHeadCksum | TinyFrame.c:428-455 | the HEAD_CKSUM case updates the fields as `ConsumeHeadCksum` does, keeps the session invariant, and dispatches an empty frame it accepts |
| Framing.TinyFrame.LastHeadCksum | TinyFrame.c:429-453 | the last header checksum byte: the same as `AcceptHeadCksum` when COLLECT_NUMBER completes the field |
| Framing.TinyFrame.LastData | TinyFrame.c:457-476 | the last payload byte: the same as `AcceptData` when `tf.rxi` reaches `tf.len` |
| Framing.TinyFrame.AcceptDataCksum | TinyFrame.c:479-489 | the DATA_CKSUM case updates the fields as `ConsumeDataCksum` does, keeps the session invariant, and dispatches the frame it accepts |
| Framing.TinyFrame.BeginPayload | TinyFrame.c:438-453 | the fields become those of `BeginPayload` (corrected length test) and the empty frame, if any, is dispatched |
| Framing.TinyFrame.FinishType | TinyFrame.c:416-424 | the fields become those of `TypeDone` (the corrected end of TYPE) and the frame it completes, if any, is dispatched |
| Framing.TinyFrame.FinishHeader | TinyFrame.c:430-453 | the fields become those of `HeaderDone` and the frame it completes, if any, is dispatched |
| Framing.TinyFrame.FinishData | TinyFrame.c:465-476 | the fields become those of `DataDone` and the frame it completes, if any, is dispatched |
| Framing.TinyFrame.FinishDataCksum | TinyFrame.c:480-488 | the fields become those of `DataCksumDone` and the frame it accepts, if any, is dispatched |
| Framing.TinyFrame.AcceptData | TinyFrame.c:457-477 | the one store into `tf.data` is in bounds under the invariant of the corrected machine, and the fields become those of `ConsumeData` |
| Framing.TinyFrame.Accept | TinyFrame.c:342-348 | TF_Accept leaves the parser as `Run` over the buffer does, and dispatches every frame of that run in order |
| Framing.TinyFrame.Tick | TinyFrame.c:650-655 | TF_Tick updates the parser as `Tick` does |
| Framing.TinyFrame.WriteNum | TinyFrame.c:539-548 | WRITENUM appends the big-endian bytes of a number to the send buffer, adding them to the checksum when asked |
| Framing.TinyFrame.WriteData | TinyFrame.c:568-575 | the payload loop appends the payload verbatim to the send buffer and adds every byte to the payload checksum |
| Framing.TinyFrame.WriteHeader | TinyFrame.c:551-565 | SOF, ID, LEN and TYPE, then their checksum, are written at the start of the send buffer |
| Framing.TinyFrame.WritePayload | TinyFrame.c:568-582 | the payload and its checksum are written after the header |
| Framing.TinyFrame.Compose | TinyFrame.c:506-585 | TF_ERROR without touching the ID counter or the send buffer when the payload is larger than TF_MAX_PAYLOAD; otherwise the explicit ID or the automatic one (advancing the counter by one), and the send buffer starts with exactly `FrameBytes` |
| Framing.TinyFrame.Send | TinyFrame.c:587-602 | succeeds iff the payload fits; then the automatic ID is used, the counter advances, the bytes are the composed frame and the listener (if any) is registered for that ID; on failure the ID counter, the ID table and the send buffer are unchanged |
| Framing.TinyFrame.Respond | TinyFrame.c:605-615 | succeeds iff the payload fits; the given ID is used verbatim, the ID counter is not touched, and on failure the send buffer is unchanged |
| Framing.TinyFrame.Send0 | TinyFrame.c:620-625 | an empty frame always fits: it is sent with the automatic ID, the ID counter advances by one, the bytes are the composed empty frame, and the listener (if any) is registered for that ID |
| Framing.TinyFrame.Send1 | TinyFrame.c:630-636 | a one-byte frame is sent iff TF_MAX_PAYLOAD allows one byte; then as `Send` (automatic ID, counter advanced, composed bytes, listener registered); on failure the ID counter, the ID table and the send buffer are unchanged |
| Framing.TinyFrame.Send2 | TinyFrame.c:641-647 | a two-byte frame is sent iff TF_MAX_PAYLOAD allows two bytes; then as `Send` (automatic ID, counter advanced, composed bytes, listener registered); on failure the ID counter, the ID table and the send buffer are unchanged |

## Left out

- `TF_WriteImpl` (the transport) is foreign code. `Send` and `Respond` return the bytes they would hand to it.
- The bodies of listener callbacks are foreign code. The `claims` oracle gives their return values. A callback that calls back into the parser (reentrancy) is not modelled.
- A callback that changes the listener tables while a frame is dispatched is not modelled. The tables are fixed for one dispatch.
- The `memset` in `TF_Init` is the constructor setting every field to zero or null.
- The ESP8266 `ICACHE_FLASH_ATTR` annotation has no meaning here.
- `TinyFrame.h` is not part of this model. Its constants are fields of `Protocol.Config`. `ValidConfig` requires that TF_ID_MASK and TF_ID_PEERBIT share no bit and fit a TF_ID.
- TF_OVERHEAD_BYTES is defined in `TinyFrame.h`, which is not part of this model. It is taken as the SOF, ID, LEN and TYPE widths plus two checksum widths.
- The CRC tables are copied as constant data. That they derive from the polynomials 0x8005 (reflected) and 0xEDB88320 is not proved.
- Framing.TinyFrame.Compose: the C `int` counters `pos` and `i` cannot overflow here, because the send buffer has at most TF_MAX_PAYLOAD + TF_OVERHEAD_BYTES bytes. The model uses unbounded naturals and requires the type and payload length to fit their TF_TYPE and TF_LEN fields, which the C code truncates instead.
- Framing.TinyFrame.AddIdListener, Framing.TinyFrame.AddTypeListener and Framing.TinyFrame.AddGenericListener: a NULL callback cannot be passed. A `Handle` is never null, so a slot is free exactly when it holds `None`.

## Findings

| source | as written | input that shows it | evidently intended | confidence | as-written member | corrected member |
|---|---|---|---|---|---|---|
| TinyFrame.c:450 | `tf.len >= TF_MAX_PAYLOAD` sets `discard_data` | a frame with exactly TF_MAX_PAYLOAD payload bytes, which TF_Compose accepts (TinyFrame.c:520) and the buffer can hold | discard only when `tf.len > TF_MAX_PAYLOAD`, so every frame TF_Compose writes can be received (checksum modes 8, 16 and 32; mode 0 never reaches this test) | not executed | ParserProofs.MaxFrameDroppedAsWritten | ParserProofs.RoundTrip |
| TinyFrame.c:416-418 | without a checksum, the end of TYPE enters DATA directly, skipping the empty-frame and oversize handling of TinyFrame.c:438-453 | checksum mode 0 and a header with LEN 0 (the DATA test `rxi == len` never holds after the increment, so no frame is delivered, and the stores run past the buffer once more than TF_MAX_PAYLOAD bytes arrive before the timeout) or LEN above TF_MAX_PAYLOAD (byte TF_MAX_PAYLOAD+1 of the payload is written past the buffer by `tf.data[tf.rxi++]`) | the header is accepted as in the checksummed modes: LEN 0 delivers an empty frame at once, an oversized LEN is discarded, and DATA delivers only a kept frame | not executed | ParserProofs.OverrunAsWritten | ParserProofs.OversizedDropped |

In the model, `Parser.Oversized` is the corrected test and `Parser.OversizedAsWritten` the test as written. `Parser.TypeDone` is the corrected end of TYPE and `Parser.TypeDoneAsWritten` the code as written; `Parser.ConsumeDataAsWritten` is the DATA state as written, and `ParserProofs.OverrunAsWritten` shows that the as-written end of TYPE also breaks the invariant bounding the stores. The `TinyFrame` class uses the corrected definitions. In checksum mode 0, the corrected DATA completion (`Parser.DataDone`) delivers only a frame that is not discarded.
