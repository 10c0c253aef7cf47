# Encrypted last-writer-wins sync, modelled in Dafny

This project models the encrypted sync protocol of the encrypted-AutoMerge
editor. Clients encrypt every hexadecimal digit of an edit's timestamp and of
its random content id, and every nibble of its text. The server keeps, for
each document, the greatest timestamp seen and the id that came with it. It
does so by comparing and multiplexing ciphertexts homomorphically, so it
never sees the plaintext. Content bodies are stored under their decimal
content id and expire after five minutes. Other clients fetch the winner and
decrypt it.

The modules follow the program's structure:

- `FheTypes` (`fhe_types.dfy`): the wire constants and messages, plus the
  `HttpResponse`, `Option` and `Result` types shared by the other modules.
- `Digits` (`digits.dfy`): the base-16 positional arithmetic that the client
  codec and the server comparison share.
- `TfheShortint` (`tfhe_shortint.dfy`): the client codec and the monotonic
  clock.
  - Encryption is abstracted into a `ClientKey`: one function encrypts a
    single nibble to base64 and one decrypts a base64 ciphertext.
  - `Sound(key)` says that decrypting an encrypted nibble gives it back.
  - Text is handled as its UTF-8 bytes.
  - The encoders and decoders are methods with the source's loops and
    arrays. Each is proved against a specification function, and the round
    trips are proved about those functions.
- `Server` (`server.dfy`): the server read over plaintext messages. Each
  ciphertext stands for the nibble it encrypts, and each homomorphic
  operation stands for the operation on nibbles.
  - `GtDigits` is proved to be exactly `Value(a) > Value(b)`.
  - `SelectLatest` specifies the merge of one update into a document record.
  - `Replay` applies a run of updates. Its lemmas prove last-writer-wins: the
    stored timestamp is the maximum seen, and the stored id is that of the
    earliest update carrying it.
  - `SyncServer` is the shared state: documents, contents, creation times,
    rooms and the messages broadcast into rooms.
- `Decimal` (`decimal.dfy`): `toString(10)` on non-negative integers, with its
  inverse.
- `SyncClient` (`web_socket_sync_client.dfy`): the WebSocket transport and
  its reconnect state machine.
  - Every asynchronous step is a method call: a socket opening or failing, a
    close event, a timer firing.
  - Listeners are numbers.
  - `trace` records deliveries, connects and sends, in order.
- `Documents` (`document_service.dfy`): the document orchestrator.
- `Editor` (`editor_service.dfy`): the editor's listeners, debounce and
  state.
- `Protocol` (`protocol.dfy`): end-to-end statements.
  - The server's encrypted comparison orders client timestamps as integers.
  - Across clients sharing a key, the latest edit wins.
  - Stored content reads back as the sender's text, cut to 62 bytes.

Three behaviours of the code are worth stating plainly:

- **Integer decoding:** the decoder folds over every entry it is given, not
  only the first 16 (`TfheShortint.DecodeConsumesEveryEntry`).
- **Evaluation-key upload:** the server's evaluation key is uploaded only
  when the worker generates a new client key, not on every connect.
- **Reconnect budget:** the counter is not held at five (see Findings).

## Model

| member | source | states |
|---|---|---|
| TfheShortint.EncryptU64ToDigits | frontend/src/infrastructure/crypto/TfheShortint.ts:45-55 | the array of 16 digits filled from index 15 down with `x & 0xf`, `x >>= 4` is exactly the encryption of the 16 low hex digits of `n`, most significant first |
| TfheShortint.U64DigitsAt | frontend/src/infrastructure/crypto/TfheShortint.ts:47-48 | encoding yields 16 entries, and entry `i` is `(n >> 4*(15-i)) & 0xf` |
| TfheShortint.DecryptDigitsToU64 | frontend/src/infrastructure/crypto/TfheShortint.ts:57-66 | the `acc = (acc << 4) \| (m & 0xf)` loop computes the base-16 value of all decrypted entries |
| TfheShortint.U64DigitsValue | frontend/src/infrastructure/crypto/TfheShortint.ts:45-66 | reading the 16 digits back gives `n mod 2^64` for any integer, and `n` itself for every u64 |
| TfheShortint.U64RoundTrip | frontend/src/infrastructure/crypto/TfheShortint.ts:45-66 | with a sound key, decoding the encoding of any `0 <= n < 2^64` gives `n` |
| TfheShortint.DecodedU64Bounded | frontend/src/infrastructure/crypto/TfheShortint.ts:57-66 | 16 ciphertexts always decode to a value below 2^64 |
| TfheShortint.DecodeConsumesEveryEntry | frontend/src/infrastructure/crypto/TfheShortint.ts:59-64 | the decoder does not stop at 16: leading entries shift into the high part of the result |
| TfheShortint.Truncated | frontend/src/infrastructure/crypto/TfheShortint.ts:72-75 | text longer than 62 bytes is cut to its first 62 bytes; shorter text is kept |
| TfheShortint.EncryptContent | frontend/src/infrastructure/crypto/TfheShortint.ts:69-94 | the envelope, nibble-splitting, padding and slicing loops produce the encryption of `ContentNibbles(text)` |
| TfheShortint.EnvelopeBuffer | frontend/src/infrastructure/crypto/TfheShortint.ts:71-79 | the buffer holds the 2-byte big-endian length of the body cut to 62 bytes, then that body |
| TfheShortint.NibblizeBuffer | frontend/src/infrastructure/crypto/TfheShortint.ts:80-85 | the nibble list has two entries per buffer byte, high nibble first |
| TfheShortint.PadNibbles | frontend/src/infrastructure/crypto/TfheShortint.ts:87-88 | pushing zeros up to 128 and keeping the first 128 gives the list cut or zero-padded to exactly 128 |
| TfheShortint.ContentNibblesLayout | frontend/src/infrastructure/crypto/TfheShortint.ts:76-88 | 128 nibbles: the big-endian 16-bit length as 4 nibbles, then each body byte high nibble first, then zeros |
| TfheShortint.EmptyContentIsZeros | frontend/src/infrastructure/crypto/TfheShortint.ts:72-88 | the empty text encodes to 128 zero nibbles |
| TfheShortint.DecryptContent | frontend/src/infrastructure/crypto/TfheShortint.ts:96-117 | the decrypt, byte-rebuild and slice loops compute `ContentOf` of the decrypted nibbles |
| TfheShortint.DecryptNibbles | frontend/src/infrastructure/crypto/TfheShortint.ts:97-104 | the first `min(len, 128)` ciphertexts are decrypted, each masked to its low 4 bits |
| TfheShortint.PackBytes | frontend/src/infrastructure/crypto/TfheShortint.ts:105-112 | each whole pair of nibbles becomes one byte, `hi*16+lo`; an odd last nibble is dropped |
| TfheShortint.BytesOfNibbles | frontend/src/infrastructure/crypto/TfheShortint.ts:98-112 | at most 128 nibbles are read, giving `floor(n/2)` bytes of the form `hi*16+lo` |
| TfheShortint.OpenEnvelope | frontend/src/infrastructure/crypto/TfheShortint.ts:113-114 | the body is the `[2, 2+len)` slice clamped to the buffer, with missing header bytes read as 0 |
| TfheShortint.ContentRoundTripNibbles | frontend/src/infrastructure/crypto/TfheShortint.ts:69-117 | decoding the content encoding of any text gives the text cut to 62 bytes |
| TfheShortint.ContentRoundTrip | frontend/src/infrastructure/crypto/TfheShortint.ts:69-117 | with a sound key, a text of at most 62 bytes comes back byte for byte |
| TfheShortint.DecodedContentBounded | frontend/src/infrastructure/crypto/TfheShortint.ts:96-117 | any decoded content is at most 62 bytes |
| TfheShortint.MonotonicClock.Next | frontend/src/infrastructure/crypto/TfheShortint.ts:37-42 | returns and stores `max(now, lastTs+1)`: strictly above every earlier result even when `now` stalls |
| Digits.ValueAppend | frontend/src/infrastructure/crypto/TfheShortint.ts:59-64 | folding `acc*16+d` over `a+b` equals `Value(a)*16^\|b\| + Value(b)` |
| Digits.LexStep | server/src/main.rs:81-87 | one digit pair extends "greater" as "greater before, or equal before and greater here", and "equal" as "equal before and equal here" |
| Server.GtDigits | server/src/main.rs:77-89 | on equal-length digit vectors the `eq_prefix`/`res` loop returns 1 exactly when `a`'s value is greater, and 0 otherwise, equality included |
| Server.Mux | server/src/main.rs:91-98 | a selector of 1 gives `x`, a selector of 0 gives `y` |
| Server.MuxDigits | server/src/main.rs:169-170 | the zipped digit-wise mux returns the first vector under 1 and the second under 0 |
| Server.FixLen | server/src/main.rs:151-155 | exactly `len` entries: shorter input left-padded with zeros, longer input cut to its last `len` entries, equal length unchanged |
| Server.FixLenValue | server/src/main.rs:151-155 | left-padding keeps the value; cutting keeps the low part, dropping a multiple of `16^len` |
| Server.SelectLatestIsLww | server/src/main.rs:160-183 | the stored ts is the larger of the old and new one, and so never decreases; the new id is taken only when the new ts is strictly greater, so a tie keeps the old id |
| Server.ReplayIsLww | server/src/main.rs:160-183 | after any run of updates, the stored ts is the max of the old ts and all new ones; the id is that of the earliest update carrying the max ts, or the old id |
| Server.ReplayFromNothing | server/src/main.rs:176-182 | a record created by the first update ends with the max ts of the run and the id of its earliest carrier |
| Server.MaxTsFirst | server/src/main.rs:160-183 | the max timestamp of a run is attained, bounds every update, and has an earliest carrier |
| Server.SelectRecord | server/src/main.rs:156-183 | the normalise/compare/mux block computes `SelectLatest` |
| Server.NormalizeContent | server/src/main.rs:189-190 | the truncate-then-push-zeros loop yields the content cut or zero-padded to exactly 128 entries |
| Server.SyncServer.constructor | server/src/main.rs:323-332 | empty maps, with a server key present exactly when one was restored |
| Server.SyncServer.EnsureRoom | server/src/main.rs:100-106 | insert-if-absent: an existing room is returned with the map unchanged; a new room gets a channel no other room has |
| Server.SyncServer.Join | server/src/main.rs:116-127 | ensures the room, then sends the document's current selection first, when it has one |
| Server.SyncServer.HandleUpdate | server/src/main.rs:137-198 | without a key or on a parse failure nothing changes; otherwise the record becomes `SelectLatest`, the content is stored at 128 entries with time `now`, and the selected id is broadcast into the socket's room |
| Server.SyncServer.GetContent | server/src/main.rs:265-275 | refreshes the time of a stored id only; returns the stored entries, or an empty list for an unknown id |
| Server.SyncServer.CollectGarbage | server/src/main.rs:336-350 | exactly the expired ids leave both `contents` and `content_created`, keeping the two maps in step |
| Decimal.DecimalRoundTrip | frontend/src/application/services/DocumentService.ts:204 | the decimal rendering of the content id parses back to the same integer |
| Decimal.DecimalInjective | frontend/src/application/services/DocumentService.ts:122 | two ids have the same decimal content id exactly when they are equal |
| SyncClient.GetDocument | frontend/src/infrastructure/sync/WebSocketSyncClient.ts:124-140 | succeeds exactly on an ok response whose body parses; an unreachable server, a non-ok status or an unparsable body each give an error |
| SyncClient.WebSocketSyncClient.Connect | frontend/src/infrastructure/sync/WebSocketSyncClient.ts:24-38 | records the document id and a new socket; on open the counter resets to 0, and on failure the socket's close event is pending |
| SyncClient.WebSocketSyncClient.OnMessage | frontend/src/infrastructure/sync/WebSocketSyncClient.ts:40-47 | a parsed message goes to every listener in registration order; an unparsable one goes to none |
| SyncClient.WebSocketSyncClient.OnClose | frontend/src/infrastructure/sync/WebSocketSyncClient.ts:49-77 | schedules a resync only while the counter is below 5, with delay `1000 * counter` read before any increment (0 right after an open) |
| SyncClient.WebSocketSyncClient.FireTimer | frontend/src/infrastructure/sync/WebSocketSyncClient.ts:54-75 | as written: increment without a bound check; a resync delivers the fetched selection to every listener before connecting, and schedules one retry on failure while below 5; a retry only connects |
| SyncClient.WebSocketSyncClient.FireTimerChecked | frontend/src/infrastructure/sync/WebSocketSyncClient.ts:53-76 | corrected: a timer that finds the budget spent does nothing, so the counter never exceeds 5 |
| SyncClient.WebSocketSyncClient.SendUpdate | frontend/src/infrastructure/sync/WebSocketSyncClient.ts:103-117 | refused, and nothing sent, when the socket is not open, or when the document id is unset or the empty string (the falsy test); otherwise the update is sent |
| SyncClient.WebSocketSyncClient.OnUpdate | frontend/src/infrastructure/sync/WebSocketSyncClient.ts:94-96 | appends the listener |
| SyncClient.ReconnectBudgetOverrun | frontend/src/infrastructure/sync/WebSocketSyncClient.ts:53-76 | a sequential schedule of opens, closes and timers that leaves the counter at 6 |
| SyncClient.ReconnectBudgetKept | frontend/src/infrastructure/sync/WebSocketSyncClient.ts:53-76 | the same schedule with the bound checked stops at 5 |
| Documents.RandomContentId | frontend/src/application/services/DocumentService.ts:191 | the content id is always odd, and below 2^54 for every sample of `Math.random() * MAX_SAFE_INTEGER` |
| Documents.OutboundUpdateRoundTrip | frontend/src/application/services/DocumentService.ts:188-206 | a receiver with the same key decodes `id_cts` to the integer whose decimal string is `content_id`, `ts_cts` to the timestamp, and the content to the text cut to 62 bytes |
| Documents.ParseShareUrl | frontend/src/application/services/DocumentService.ts:246-261 | a URL that does not parse, or lacks a non-empty `doc` or `key`, gives no result; otherwise both values |
| Documents.DocumentService.UpdateDocument | frontend/src/application/services/DocumentService.ts:171-209 | a missing key fails with `KeyNotFound`, changing neither the document, the clock nor the transport; otherwise the current document is the input with the new text and time, its other fields (`cursorLine`) carried over, and the encrypted update is handed to the transport only while connected |
| Documents.DocumentService.HandleRemoteUpdate | frontend/src/application/services/DocumentService.ts:105-141 | without a current document, without a key, or on a failed, non-ok or unparsable fetch, the document is unchanged; otherwise it takes the decrypted content of the selected id and the new time, keeping its id and `cursorLine` |
| Documents.DocumentService.ConnectToDocument | frontend/src/application/services/DocumentService.ts:79-99 | the document becomes current unless one with its id is; on open the service is connected and one more remote-update listener is registered; a failed connect is rethrown with the flag, the listeners and the reconnect counter unchanged, and leaves its socket's close event pending, which drives the reconnect machine; no timer is scheduled by the call itself |
| Documents.DocumentService.DisconnectFromDocument | frontend/src/application/services/DocumentService.ts:146-164 | clears the flag and the document, so `isConnectedToDocument` is false |
| Documents.DocumentService.EnsureClientKey | frontend/src/application/services/DocumentService.ts:263-303 | a stored key is returned without a worker run; otherwise the worker's key is stored and returned and its server key posted, or its error rethrown |
| Documents.DocumentService.CreateDocument | frontend/src/application/services/DocumentService.ts:25-45 | a usable stored key is kept and no worker runs; otherwise the worker runs once, and its client key is stored and its server key posted, or its error rethrown with the key store, the uploads and the current document unchanged; on success an empty document with the new id is current |
| Documents.DocumentService.LoadDocument | frontend/src/application/services/DocumentService.ts:52-73 | an unusable share URL fails with `InvalidShareUrl`, and a failed fetch is rethrown, both leaving the document unchanged; otherwise an empty document with the URL's id is current |
| Editor.EditorService.InitializeEditor | frontend/src/application/services/EditorService.ts:17-28 | sets the text and the cursor line, which defaults to 0 |
| Editor.EditorService.OnTextChange | frontend/src/application/services/EditorService.ts:34-36 | appends the listener |
| Editor.EditorService.EmitTextChange | frontend/src/application/services/EditorService.ts:43-54 | replaces any pending emission by one for the new text and delivers nothing yet |
| Editor.EditorService.FireDebounce | frontend/src/application/services/EditorService.ts:50-53 | every listener receives the pending text in registration order, and the slot empties |
| Editor.EditorService.UpdateText | frontend/src/application/services/EditorService.ts:60-67 | sets the text only |
| Editor.EditorService.SetCursorLine | frontend/src/application/services/EditorService.ts:73-80 | stores the line as given, negative values included |
| Editor.EditorService.Destroy | frontend/src/application/services/EditorService.ts:85-101 | cancels the pending emission, drops the listeners, and resets text and cursor; the result does not depend on the prior state, so a second call is harmless |
| Editor.RapidEmissionsDeliverLast | frontend/src/application/services/__test__/EditorService.test.ts:90-101 | three rapid emissions reach the listener once, with the last text |
| Editor.EmissionReachesAllListeners | frontend/src/application/services/__test__/EditorService.test.ts:103-114 | one emission reaches both registered listeners, in registration order |
| Editor.DestroyDropsListeners | frontend/src/application/services/__test__/EditorService.test.ts:183-231 | after `destroy`, called twice, the listeners are gone, text and cursor are reset, the pending emission never arrives and a later one reaches nobody |
| Protocol.ComparisonMatchesClientOrder | server/src/main.rs:168 | over timestamps a client encoded, the server's encrypted "greater" bit is set exactly when the first timestamp is later |
| Protocol.LatestEditWins | server/src/main.rs:160-183 | across clients sharing a key, the stored ts decodes to the latest edit's ts, no edit is later, and the stored id decodes to the id of the first edit with that ts |
| Protocol.StoredContentReadsBack | server/src/main.rs:186-192 | content stored by the server and read back with the same key is the sender's text cut to 62 bytes |

## Left out

- TFHE primitives are abstracted by `ClientKey` and `Sound`:
  - encryption, decryption and serialization;
  - trivial ciphertexts and the `unchecked_*` operations;
  - lookup tables;
  - key generation in the worker;
  - `restoreClientKey` and `loadTfhe`.
- Encryption randomness is not modelled. `ClientKey.encrypt` is a function,
  so equal nibbles encrypt to equal strings.
- The server works on the plaintext each ciphertext stands for. Ciphertexts
  with carries or noise are not modelled.
- Base64 and UTF-8 conversion are left out: `bytesToB64`, `b64ToBytes`,
  `TextEncoder` and `TextDecoder`. Texts are their UTF-8 bytes, and the round
  trips are stated at byte level.
- HTTP, WebSocket and database I/O are left out:
  - axum routing, the upgrade and the socket split;
  - the broadcast forward task;
  - `fetch`, with responses passed in as parameters;
  - SQLite persistence and key restore at boot (the constructor only takes
    whether a key was restored);
  - the IndexedDB key store, which is a map field.
- Concurrency is left out. Locks, `tokio::spawn`, promises and timers become
  sequential method calls. `Date.now`, `Instant::now` and `Math.random` are
  parameters.
- The server-key endpoints (`set_server_key_api`, `set_server_key_bin`) and
  their SQLite writes are left out. `hasServerKey` stands for the installed
  key.
- Server.SyncServer.HandleUpdate:
  - a malformed base64 ciphertext, which the source unwraps and panics on, is
    not modelled;
  - the broadcast channel's capacity of 128 is not modelled;
  - a broadcast is recorded even when no receiver exists.
- Server.SyncServer.CollectGarbage: one sweep at a given time; the
  five-second loop around it is left out.
- SyncClient.WebSocketSyncClient.Connect:
  - only the latest socket can be dropped (`Drop`);
  - an earlier socket that is still open is not tracked after a new connect;
  - `onerror` and a socket that stays in CONNECTING are folded into the
    `opens` flag.
- SyncClient.WebSocketSyncClient.SendUpdate: `ws.send` throwing is not
  modelled.
- SyncClient.GetDocument: which server route answers the fetch is not
  modelled; the response is a parameter.
- Timer delays are recorded on each `Timer` but are not used to order the
  firings; any pending timer may fire next. Each timer firing runs to
  completion, through its fetch and its connect's outcome, before any other
  event. Interleavings inside a firing are not modelled: for example, another
  socket opening (and resetting the counter) while a resync awaits its fetch,
  after which the source's `catch` reads the reset counter.
- Documents.DocumentService.ConnectToDocument: the registered listener is the
  constant `REMOTE_UPDATE_LISTENER`. Calling `HandleRemoteUpdate` for each
  delivery is left to the caller.
- Documents.DocumentService.HandleRemoteUpdate: `loadTfhe`,
  `restoreClientKey` and ciphertext deserialization are total here, so they
  cannot fail. In the source, a throw from any of them is caught and leaves
  the document unchanged. Such throws include a malformed base64 entry and a
  body without `content_cts`. The model leaves the document unchanged only on
  a fetch failure, a non-ok status or a body that does not parse.
- Documents.DocumentService.UpdateDocument:
  - a throw from `loadTfhe`, `restoreClientKey` or encryption is not
    modelled. In the source it leaves the document unchanged. If it comes
    after `nextMonotonicTs`, the clock has already advanced;
  - `Date.now` is read once per call and serves both the document stamp and
    the clock;
  - `rand` is required to lie in the range `Math.floor(Math.random() *
    MAX_SAFE_INTEGER)` produces.
- Documents.DocumentService.LoadDocument: the URL parser is abstracted to the
  query map it yields (or `None` when the URL does not parse). The key
  carried in the URL is not stored, as in the source.
- `shareDocument`, `generateShareUrl` and `getCurrentDocument` are left out:
  they depend on the `URL` library or only return a field.
- `frontend/src/app/actions.ts`, the UI components and the legacy
  `DocumentEncryption`, `MockDocumentEncryption` and `SyncClient` interfaces
  are not part of this model.
- Editor: the editor library integration and the console logging are left
  out. The 500 ms debounce delay is not modelled; the debounce timer's expiry
  is the explicit `FireDebounce` event.

## Findings

| source | as written | input that shows it | evidently intended | confidence | as-written member | corrected member |
|---|---|---|---|---|---|---|
| frontend/src/infrastructure/sync/WebSocketSyncClient.ts:53-76 | the close handler checks `reconnectAttempts < 5` when it schedules a timer, but the timer increments the counter unconditionally when it fires; a resync whose reconnect fails leaves two timers (the `catch` retry and the failed socket's own close-handler resync), both scheduled while the counter was below 5 | open a socket and drop it, then let every reconnect fail while the resync fetch (`GET /ws?doc_id=`) answers ok: resync (1), retry (2), resync (3), resync (4), retry (5), resync (6) — the counter reaches 6. This repository's server answers `/ws` only to WebSocket upgrades (server/src/main.rs:108, 361), so against it every fetch fails and the counter stops at 5; the overrun needs a server or proxy that answers that fetch | at most 5 reconnect attempts, after which the transport stays closed | not executed; medium against a server that answers the resync fetch, low against this repository's own server (its fetch always fails) | SyncClient.ReconnectBudgetOverrun | SyncClient.WebSocketSyncClient.FireTimerChecked |
