# Kirim Data: chunked file transfer, modelled in Dafny

Kirim Data sends chat messages and files between two browsers over a WebRTC data
channel. This project models the part that moves files, together with the
bookkeeping that goes with it:

- **Sender** (`sendFileWithProgress` in js/file-transfer.js).
  - Sends one `file-meta` message.
  - Then sends `file-chunk` messages of 64 KiB (`CHUNK_SIZE`) each.
  - Before each chunk it runs a backpressure gate. If the buffered amount is above
    64 KiB, it polls until a reading is strictly below 64 KiB.
  - Progress is shown after every fifth chunk and after the last one.
- **Receiver** (`incomingFiles`, `handleIncomingFileMeta`, `handleIncomingFileChunk`).
  - Each chunk is stored in a sparse array slot at its index.
  - Once the number of filled slots reaches `totalChunks`, the slots are joined
    into a Blob and the entry is deleted.
- **Native page** (js/native-app.js).
  - `arrayBufferToBase64` and `base64ToArrayBuffer` convert payloads (Base64 as in
    RFC 4648 section 4; `atob` as the WHATWG forgiving-base64 decoder).
  - The send callback of `processFileToSend` wraps binary chunk payloads in Base64.
  - `handleDataChannelMessage` routes each incoming frame to one of:
    - the chunked receiver;
    - the legacy "current transfer" path (a `meta` message, then raw binary frames);
    - video signalling;
    - chat.
  - The info panel keeps an activity log (newest first, at most 50 entries) and six
    traffic counters.

Modules:

| module | file | content |
|---|---|---|
| `Common` | common.dfy | `Option`, bytes, `Flatten` |
| `Protocol` | protocol.dfy | messages as the code builds them, and frames as they cross the channel |
| `Base64` | base64.dfy | encoder, decoder, `btoa`/`atob`, the round trip |
| `InfoPanel` | info_panel.dfy | `infoState` as a class: counters and activity log |
| `Sender` | sender.dfy | chunking, backpressure gate, progress, the send loop |
| `Receiver` | receiver.dfy | `incomingFiles` as a class `Registry` over pure transition functions |
| `Reassembly` | reassembly.dfy | end-to-end properties of chunked and legacy reassembly |
| `NativeApp` | native_app.dfy | Base64 helpers, packet wrapping, the dispatcher, the page |

How the JavaScript is represented:

- Bytes are integers in 0..255. A Blob or ArrayBuffer is a sequence of them.
- JSON parsing and serialisation are constructors and matches on `Message` and `Frame`.
- The buffered amount is a sequence of readings. Each call to `getBufferedAmount()`
  consumes the next reading. When the readings run out, the sender has stalled.
- The sparse `chunks` array is a map from index to bytes plus the array's `length`.
  `new Blob(chunks)` turns a hole into the text "undefined", and the model does the same.
- Clock readings (`time`) and file ids come in as parameters.

## Model

| member | source | states |
|---|---|---|
| Sender.TotalChunks | js/file-transfer.js:24 | `Math.ceil(size / CHUNK_SIZE)`: the fewest 64 KiB chunks covering the file; zero exactly for a zero-byte file |
| Sender.ChunksPartitionFile | js/file-transfer.js:67-96 | the chunk slices `[k*C, min(size,(k+1)*C))` concatenate back to the file; every chunk but the last is full; the last is non-empty and at most `C` bytes |
| Sender.PlanShape | js/file-transfer.js:49-96 | one `file-meta` message, then chunks 0..totalChunks-1 with no gaps, whose payloads join to the file; a zero-byte file sends only the metadata |
| Sender.Resume | js/file-transfer.js:73-80 | the poll resumes right after the first reading strictly below the threshold, and every earlier reading is at or above it |
| Sender.Gate | js/file-transfer.js:70-81 | a reading at or below the threshold (including exactly the threshold) lets the chunk through at once; a higher reading waits for one strictly below |
| Sender.GateShut | js/file-transfer.js:70-81 | the gate stays shut exactly when the readings run out, or the first reading is above the threshold and no later reading is strictly below it; so the chunk goes out as soon as the buffer drains |
| Sender.StalledStaysStalled | js/file-transfer.js:73-80 | once a gate never opens, no later chunk is sent |
| Sender.ReleasesRespectThreshold | js/file-transfer.js:67-81 | every chunk that is sent passed its gate: released on a reading not above the threshold, and after a wait only on a strictly lower reading |
| Sender.Percent | js/file-transfer.js:100 | the shown percent is at most 100, and exactly 100 once the offset reaches the size |
| Sender.ReportsBounded | js/file-transfer.js:99-102 | every progress value shown is at most 100, and a finished non-empty transfer shows 100 last |
| Sender.AwaitGate | js/file-transfer.js:70-81 | the backpressure check as a polling loop computes the gate |
| Sender.SentIsPlanPrefix | js/file-transfer.js:49-96 | the messages sent after k chunks are exactly the first `k + 1` messages of the plan |
| Sender.SendNext | js/file-transfer.js:67-102 | one loop iteration: either the gate never opens and nothing more is ever sent, or chunk k (the slice at `offset`) is sent after its gate and the progress report follows the throttle rule |
| Sender.SendFile | js/file-transfer.js:22-103 | the messages sent are the first `1 + released` messages of the plan; each released chunk obeys the gate; the loop completes exactly when every chunk was released; progress is the throttled report sequence |
| Receiver.StartChunked | js/file-transfer.js:122-129 | the entry for the file id is installed or overwritten, with no chunks and nothing received; every other entry is unchanged |
| Receiver.AcceptChunkSpec | js/file-transfer.js:139-178 | for `AcceptChunk`: unknown id: no change; legacy entry: throws; otherwise the slot is set (even a duplicate), the array length becomes at least `chunkIndex + 1` and `receivedBytes` grows by the payload length; completion happens exactly when the filled slots reach `totalChunks`, and then the artifact is the Blob of the slots in index order (`Assemble`) and only that entry is deleted; no other entry changes |
| Receiver.StartLegacy | js/native-app.js:230-233 | a legacy `meta` message creates an entry with an empty buffer and `received = 0`, and makes its id current |
| Receiver.AcceptBinary | js/native-app.js:264-278 | with no (truthy) current transfer the frame is ignored; otherwise it is appended and `received` grows; once `received >= size` the joined buffer is handed over, the entry is deleted and the current id cleared; a chunked current entry makes the push throw with nothing changed |
| Receiver.Registry.constructor | js/file-transfer.js:9 | `incomingFiles` starts empty, with no current id |
| Receiver.Registry.OnFileMeta | js/file-transfer.js:122-132 | the table becomes `StartChunked` of the old one |
| Receiver.Registry.OnFileChunk | js/file-transfer.js:139-178 | the table and outcome follow `AcceptChunk`; completion counts one received file of the announced size and logs it; no other outcome touches the counters or the log |
| Receiver.Registry.OnLegacyMeta | js/native-app.js:230-234 | the table and current id follow `StartLegacy` |
| Receiver.Registry.OnBinary | js/native-app.js:264-278 | the table, current id and outcome follow `AcceptBinary`; a finished transfer counts one received file and logs it |
| Reassembly.ReassemblyInAnyOrder | js/file-transfer.js:139-178 | after the metadata, delivering each of the sender's chunks once in any order stores all but the last; the last completes with exactly the original bytes and deletes only that entry |
| Reassembly.DeliverPermutation | js/file-transfer.js:139-178 | any chunks, one per slot, delivered once each in any order: all but the last are stored and the last completes with the chunks joined in index order, deleting only that entry |
| Reassembly.LegacyReassembly | js/native-app.js:264-278 | after a legacy `meta` announcing the size, the binary frames are buffered in arrival order; the last one yields their concatenation, deletes the entry and clears the current id |
| Base64.Encode | js/native-app.js:427 | four characters for every started group of three bytes, all from the alphabet or `=` |
| Base64.Base64RoundTrip | js/native-app.js:420-441 | decoding the encoding of any byte sequence gives it back |
| Base64.Btoa | js/native-app.js:427 | `btoa` succeeds exactly on strings whose character codes are all below 256, and its output decodes back to those codes |
| Base64.Atob | js/native-app.js:434 | `atob` succeeds exactly when the text decodes; the result is a binary string whose character codes are the decoded bytes |
| InfoPanel.PushLog | js/native-app.js:64-65 | the new entry is at index 0, followed by the old entries, and the oldest is dropped once there are more than 50 |
| InfoPanel.InfoState.constructor | js/native-app.js:23-36 | all counters start at zero and the log starts empty |
| InfoPanel.InfoState.AddActivityLog | js/native-app.js:60-67 | the log never holds more than 50 entries and the newest is at index 0; the counters are unchanged |
| InfoPanel.InfoState.TrackMsgSent | js/native-app.js:127-131 | `msgSent` grows by one and "Pesan terkirim" is logged |
| InfoPanel.InfoState.TrackMsgRecv | js/native-app.js:133-137 | `msgRecv` grows by one and "Pesan diterima" is logged |
| InfoPanel.InfoState.TrackFileSent | js/native-app.js:139-144 | `filesSent` grows by exactly one and `bytesSent` by exactly the file size; the file name is logged |
| InfoPanel.InfoState.TrackFileRecv | js/native-app.js:146-151 | `filesRecv` grows by exactly one and `bytesRecv` by exactly the file size; the file name is logged |
| NativeApp.ArrayBufferToBase64 | js/native-app.js:420-428 | the loop builds one character per byte, and `btoa` of that string is the Base64 encoding of the buffer |
| NativeApp.Base64ToArrayBuffer | js/native-app.js:433-441 | the copy loop yields exactly the bytes the text decodes to, or fails where `atob` throws |
| NativeApp.Wrap | js/native-app.js:447-464 | primitives go out raw and objects as JSON; no binary chunk payload is ever sent as JSON |
| NativeApp.ChunkBytesRoundTrip | js/native-app.js:242-244 | the payload the chunk handler receives is the bytes that were sent: a Base64 encoding flagged `isBase64` decodes back to them, and binary passes through |
| NativeApp.WrapThenClassify | js/native-app.js:240-245 | every message the sender produces reaches the handlers as it was sent; chunk bytes survive wrapping and unwrapping |
| NativeApp.DispatchSenderChunk | js/native-app.js:240-245 | a wrapped sender chunk is handled exactly as `handleIncomingFileChunk` handles the original bytes, unless its id names a legacy entry |
| NativeApp.DeliverChunk | js/native-app.js:245-261 | a chunk for a legacy entry throws inside the try and is taken as chat with the table unchanged; otherwise the chunk handler's result stands |
| NativeApp.Dispatch | js/native-app.js:222-279 | chat and video frames change no state; only legacy `meta` and binary frames move the current id; a chunk handler throw never escapes as a chunk outcome |
| NativeApp.ChatCases | js/native-app.js:247-261 | a frame is chat exactly when it is non-JSON text, JSON of an unknown non-video type, a chunk whose Base64 fails to decode, or a chunk for a legacy entry |
| NativeApp.NativePage.HandleDataChannelMessage | js/native-app.js:222-279 | the table and current id follow `Dispatch`; chat counts one received message; a completed transfer counts one received file; the log records exactly those events and stays within 50 entries |
| NativeApp.NativePage.HandleFileChunk | js/native-app.js:240-245 | the `file-chunk` branch: decode, then the chunk handler, with throws caught as chat |
| NativeApp.NativePage.HandleDecodedChunk | js/native-app.js:245 | the chunk handler inside the try follows `DeliverChunk`, with counters and log to match |
| NativeApp.NativePage.SendPacket | js/native-app.js:447-464 | the send callback appends exactly the wrapped frame to what `dc.send` has received |
| NativeApp.NativePage.SendAll | js/native-app.js:447-464 | each message goes through the send callback in order, so what `dc.send` received grows by exactly the wrapped messages |
| NativeApp.NativePage.ProcessFileToSend | js/native-app.js:443-466 | with the channel not open nothing is sent; otherwise the wrapped plan prefix is sent in order, and a completed send counts one sent file of the file's size and logs it |

### Call sites of `sendFileWithProgress`

`sendFileWithProgress` is declared as `(file, connection, sendFn, containerId)`
(js/file-transfer.js:22). Both callers pass the send callback as the second
argument, in the `connection` slot:

- js/native-app.js:447 passes `'msgs'` as `sendFn`;
- js/app.js:216 passes nothing as `sendFn`.

As written, the first `sendFn(...)` call, the `file-meta` send at
js/file-transfer.js:49, throws a TypeError before the loop at js/file-transfer.js:67
is reached. So nothing is sent, and the buffered-amount probe is never read. The
model follows the declared signature instead: a send action, plus a separate source
of buffered-amount readings.

## Left out

- Rendering: `log`, `logNative`, previews, object URLs, progress element text, the
  receiver's percent display, `finishLegacyFileReceive` markup and `updateStatsUI`.
  They only produce markup.
- Emoji prefixes in the activity log texts are dropped.
- Real time: the 10 ms `setInterval` poll is a sequence of readings, and the
  activity-log clock is a `time` parameter.
- `generateFileId` is nondeterministic, so the file id is a parameter.
- Sender.Percent: the floating-point `Math.round(offset / size * 100)` is modelled
  as exact rational rounding, half up. Values can differ from the browser's floating
  point only at exact halves that the float computation misrounds.
- Sender.SendFile: returns the whole message list, and ProcessFileToSend hands it to
  `dc.send` afterwards. In the code the sends interleave with the awaits. The order
  and content of the sends are the same.
- Failures of `dc.send` itself (a closed channel, a full queue) are not modelled.
- `trackMsgSent` and the chat sender `sendMsg` are outside this model except for
  the counter method InfoPanel.InfoState.TrackMsgSent.
- JSON shapes the sender never produces:
  - a `file-chunk` whose string data lacks the `isBase64` flag;
  - negative or fractional chunk indexes;
  - a `currentId` key inside `incomingFiles` colliding with a file id.
  Indexes are naturals and the current id is kept apart from the file entries.
- A zero-byte file: the sender sends only `file-meta`. The receiver's
  completion test runs only when a chunk arrives, so such an entry stays pending.
  The model reproduces this as written.
- Frames no peer of this code can produce:
  - `Frame` admits a JSON frame whose chunk `data` is raw bytes. `JSON.stringify` would
    turn an ArrayBuffer into `{}`, and the classifier passes such bytes through unchanged.
    The sender always wraps binary chunks in Base64, so this frame never occurs.
  - A primitive sent through the callback is always classified as chat. In the code, a
    primitive string that parses as a JSON object would be handled as that object
    (js/native-app.js:228). The file sender sends only objects.
- The `'error'` activity-log entry written by `dc.onclose` is outside this model, so
  the log kinds are only information and success.
- Signalling, ICE, video calls and the visualisations are not part of this model.
