/** The document orchestrator of the client: the document being edited, the
    connection flag, and the transitions around them (edit, remote update,
    connect, disconnect, create, load). The key store is a map from document
    id to the serialized client key; `restore` turns a stored key string into
    the key the codec uses. Time, the random sample behind the content id,
    HTTP responses and the key-generation worker's answer are parameters. */
module Documents {
  import opened FheTypes
  import opened Digits
  import opened Decimal
  import opened TfheShortint
  import opened SyncClient

  /** `Number.MAX_SAFE_INTEGER`, 2^53 - 1. */
  const MAX_SAFE_INTEGER: int := 0x1F_FFFF_FFFF_FFFF

  /** The listener the service registers with the transport on every connect;
      it hands each selected-version message to `HandleRemoteUpdate`. */
  const REMOTE_UPDATE_LISTENER: nat := 0

  /** A document as the service holds it; `cursorLine` is the optional
      field that the service's updates carry along unchanged. */
  datatype Document = Document(id: string, text: Text, timestamp: int, cursorLine: Option<int>)

  /** What the key-generation worker answers: the serialized client key and
      the compressed server key, or an error message. */
  datatype KeyPair = KeyPair(clientKey: string, compressedServerKey: string)

  datatype ServiceError =
    | KeyNotFound
    | InvalidShareUrl
    | WorkerFailed(message: string)
    | Transport(cause: ClientError)

  /** The content id drawn from a sample `r` of
      `Math.floor(Math.random() * MAX_SAFE_INTEGER)`: reduced to 64 bits,
      shifted left by one and the low bit set. */
  function RandomContentId(r: int): (id: nat)
    ensures id % 2 == 1
    ensures 0 <= r < MAX_SAFE_INTEGER ==> id < 2 * MAX_SAFE_INTEGER < 0x40_0000_0000_0000
  {
    (r % TWO_POW_64) * 2 + 1
  }

  /** The update an edit puts on the wire: the timestamp and the content id
      as 16 digit ciphertexts each, the content id also in decimal, the text
      as 128 nibble ciphertexts. */
  function OutboundUpdate(key: ClientKey, docId: string, ts: int, randId: nat, text: Text): (u: WsClientUpdate)
    ensures |u.tsCts| == TIMESTAMP_DIGITS && |u.idCts| == TIMESTAMP_DIGITS
    ensures |u.contentCts| == CONTENT_NIBBLES
  {
    ContentNibblesLayout(text);
    WsClientUpdate(
      docId,
      EncryptAll(key, LowDigits(ts, TIMESTAMP_DIGITS)),
      EncryptAll(key, LowDigits(randId, TIMESTAMP_DIGITS)),
      DecimalString(randId),
      EncryptAll(key, ContentNibbles(text)))
  }

  /** A receiver holding the same key reads back what the sender meant: the
      decimal rendering of the decrypted id is the `content_id` the content
      was stored under, the decrypted timestamp is the sender's, and the
      decrypted content is the (possibly truncated) text. */
  lemma OutboundUpdateRoundTrip(key: ClientKey, docId: string, ts: int, randId: nat, text: Text)
    requires Sound(key)
    requires 0 <= ts < TWO_POW_64 && randId < TWO_POW_64
    ensures var u := OutboundUpdate(key, docId, ts, randId, text);
      && DecimalString(Value(DecryptAll(key, u.idCts))) == u.contentId
      && Value(DecryptAll(key, u.tsCts)) == ts
      && ContentOf(DecryptAll(key, u.contentCts)) == Truncated(text)
  {
    U64RoundTrip(key, randId);
    U64RoundTrip(key, ts);
    ContentRoundTrip(key, text);
  }

  /** `parseShareUrl` on the query of a share URL (`None` when the URL does
      not parse): both `doc` and `key` must be present and non-empty. */
  function ParseShareUrl(query: Option<map<string, string>>): (r: Option<(string, string)>)
    ensures r.Some? ==> query.Some? && "doc" in query.value && "key" in query.value
    ensures r.Some? ==> r.value == (query.value["doc"], query.value["key"])
    ensures r.Some? ==> r.value.0 != "" && r.value.1 != ""
    ensures r.None? ==>
      (query.None? || "doc" !in query.value || query.value["doc"] == ""
       || "key" !in query.value || query.value["key"] == "")
  {
    match query
    case None => None
    case Some(q) =>
      if "doc" !in q || q["doc"] == "" || "key" !in q || q["key"] == "" then None
      else Some((q["doc"], q["key"]))
  }

  class DocumentService {
    var currentDocument: Option<Document>
    var isConnected: bool
    /** The key store: a stored empty string counts as no key. */
    var keyStore: map<string, string>
    /** Number of times the key-generation worker was started. */
    var workerRuns: nat
    /** Compressed server keys posted to the server, in order. */
    var serverKeyUploads: seq<string>
    const sync: WebSocketSyncClient
    const clock: MonotonicClock
    const restore: string -> ClientKey

    constructor (sync: WebSocketSyncClient, clock: MonotonicClock, keys: map<string, string>, restore: string -> ClientKey)
      ensures this.sync == sync && this.clock == clock && this.restore == restore
      ensures keyStore == keys
      ensures currentDocument == None && !isConnected
      ensures workerRuns == 0 && serverKeyUploads == []
    {
      this.sync := sync;
      this.clock := clock;
      this.restore := restore;
      keyStore := keys;
      currentDocument := None;
      isConnected := false;
      workerRuns := 0;
      serverKeyUploads := [];
    }

    /** `loadKey`, with the falsy test the service applies to its result. */
    function KeyOf(docId: string): Option<string>
      reads this
    {
      if docId in keyStore && keyStore[docId] != "" then Some(keyStore[docId]) else None
    }

    /** `isConnectedToDocument`. */
    predicate IsConnectedToDocument()
      reads this
    {
      isConnected && currentDocument.Some?
    }

    /** Whether the transport would accept a send. */
    predicate SyncReady()
      reads sync
    {
      sync.ws.Some? && sync.ws.value.state == Open && sync.HasDocument()
    }

    /** `updateDocument` at wall-clock time `now`, with `rand` the random
        sample. Without a key it fails before anything changes. Otherwise the
        clock advances, the current document becomes `document` with the new
        text, and the encrypted update goes to the transport only while
        connected (where the transport's own guards still apply). */
    method UpdateDocument(document: Document, newText: Text, now: int, rand: int) returns (r: Result<(), ServiceError>)
      requires 0 <= rand < MAX_SAFE_INTEGER
      modifies this`currentDocument, clock, sync`trace
      ensures old(KeyOf(document.id)).None? ==>
        && r == Err(KeyNotFound)
        && currentDocument == old(currentDocument)
        && clock.lastTs == old(clock.lastTs) && sync.trace == old(sync.trace)
      ensures old(KeyOf(document.id)).Some? ==>
        var key := restore(old(KeyOf(document.id)).value);
        var u := OutboundUpdate(key, document.id, clock.lastTs, RandomContentId(rand), newText);
        && currentDocument == Some(document.(text := newText, timestamp := now))
        && clock.lastTs > old(clock.lastTs) && clock.lastTs >= now
        && (!isConnected ==> r.Ok? && sync.trace == old(sync.trace))
        && (isConnected && SyncReady() ==> r.Ok? && sync.trace == old(sync.trace) + [Sent(u)])
        && (isConnected && !SyncReady() ==> r.Err? && sync.trace == old(sync.trace))
    {
      var updated := document.(text := newText, timestamp := now);
      var keyString := KeyOf(document.id);
      if keyString.None? {
        return Err(KeyNotFound);
      }
      var cks := restore(keyString.value);
      var ts := clock.Next(now);
      var tsCts := EncryptU64ToDigits(cks, ts);
      var randId := RandomContentId(rand);
      var idCts := EncryptU64ToDigits(cks, randId);
      var contentCts := EncryptContent(cks, newText);
      currentDocument := Some(updated);
      if isConnected {
        var outbound := WsClientUpdate(document.id, tsCts, idCts, DecimalString(randId), contentCts);
        assert outbound == OutboundUpdate(cks, document.id, ts, randId, newText);
        var sent := sync.SendUpdate(outbound);
        if sent.Err? {
          return Err(Transport(sent.error));
        }
      }
      r := Ok(());
    }

    /** `handleRemoteUpdate` for a selected-version message, with `fetch` the
        server's answer to a content request by id. The current document takes
        the decrypted content only when there is a current document, a key
        for the message's document, and an ok response that parses; in every
        other case it is left as it was. */
    method HandleRemoteUpdate(selected: WsServerSelected, fetch: string -> HttpResponse<seq<Base64>>, now: int)
      modifies this`currentDocument
      ensures old(currentDocument).None? || KeyOf(selected.docId).None? ==> currentDocument == old(currentDocument)
      ensures old(currentDocument).Some? && KeyOf(selected.docId).Some? ==>
        var key := restore(KeyOf(selected.docId).value);
        var resp := fetch(DecimalString(Value(DecryptAll(key, selected.selectedIdCts))));
        && (resp.Response? && resp.ok && resp.json.Some? ==>
              currentDocument == Some(old(currentDocument).value.(text := ContentOf(DecryptAll(key, resp.json.value)), timestamp := now)))
        && (!(resp.Response? && resp.ok && resp.json.Some?) ==> currentDocument == old(currentDocument))
    {
      if currentDocument.None? {
        return;
      }
      var keyString := KeyOf(selected.docId);
      if keyString.None? {
        return;
      }
      var cks := restore(keyString.value);
      var id := DecryptDigitsToU64(cks, selected.selectedIdCts);
      var contentId := DecimalString(id);
      var res := fetch(contentId);
      if res.NetworkFailure? || !res.ok {
        return;
      }
      if res.json.None? {
        // the body does not parse: the error is caught and logged
        return;
      }
      var text := DecryptContent(cks, res.json.value);
      currentDocument := Some(currentDocument.value.(text := text, timestamp := now));
    }

    /** `connectToDocument`: the document becomes current unless one with its
        id already is; then the transport connects. Once the socket opens the
        service is connected and registers another remote-update listener; a
        failed connect is rethrown with the flag unchanged. */
    method ConnectToDocument(document: Document, opens: bool) returns (r: Result<(), ServiceError>)
      modifies this`currentDocument, this`isConnected, sync
      ensures old(currentDocument).Some? && old(currentDocument).value.id == document.id ==>
        currentDocument == old(currentDocument)
      ensures old(currentDocument).None? || old(currentDocument).value.id != document.id ==>
        currentDocument == Some(document)
      ensures sync.documentId == Some(document.id)
      ensures sync.ws == Some(Socket(document.id, if opens then Open else Closed))
      ensures sync.trace == old(sync.trace) + [ConnectIssued(document.id)]
      ensures sync.timers == old(sync.timers)
      ensures sync.closing == old(sync.closing) + (if opens then [] else [document.id])
      ensures opens ==>
        && r.Ok? && isConnected && sync.reconnectAttempts == 0
        && sync.callbacks == old(sync.callbacks) + [REMOTE_UPDATE_LISTENER]
      ensures !opens ==>
        && r == Err(Transport(ConnectFailed)) && isConnected == old(isConnected)
        && sync.callbacks == old(sync.callbacks)
        && sync.reconnectAttempts == old(sync.reconnectAttempts)
    {
      if currentDocument.None? || currentDocument.value.id != document.id {
        currentDocument := Some(document);
      }
      var c := sync.Connect(document.id, opens);
      if c.Err? {
        return Err(Transport(c.error));
      }
      isConnected := true;
      sync.OnUpdate(REMOTE_UPDATE_LISTENER);
      r := Ok(());
    }

    /** `disconnectFromDocument`: clears the flag and the current document
        (the socket and its listeners are left as they are). */
    method DisconnectFromDocument()
      modifies this`isConnected, this`currentDocument
      ensures !isConnected && currentDocument == None
      ensures !IsConnectedToDocument()
    {
      isConnected := false;
      currentDocument := None;
    }

    /** `ensureClientKey`: a stored key is returned as it is, without starting
        the worker. Otherwise the worker runs; its client key is stored and
        returned and its compressed server key posted, or its error is
        rethrown. */
    method EnsureClientKey(docId: string, generated: Result<KeyPair, string>) returns (r: Result<string, ServiceError>)
      modifies this`keyStore, this`workerRuns, this`serverKeyUploads
      ensures old(KeyOf(docId)).Some? ==>
        && r == Ok(old(KeyOf(docId)).value)
        && keyStore == old(keyStore) && workerRuns == old(workerRuns)
        && serverKeyUploads == old(serverKeyUploads)
      ensures old(KeyOf(docId)).None? ==> workerRuns == old(workerRuns) + 1
      ensures old(KeyOf(docId)).None? && generated.Err? ==>
        && r == Err(WorkerFailed(generated.error))
        && keyStore == old(keyStore) && serverKeyUploads == old(serverKeyUploads)
      ensures old(KeyOf(docId)).None? && generated.Ok? ==>
        && r == Ok(generated.value.clientKey)
        && keyStore == old(keyStore)[docId := generated.value.clientKey]
        && serverKeyUploads == old(serverKeyUploads) + [generated.value.compressedServerKey]
    {
      var existing := KeyOf(docId);
      if existing.Some? {
        return Ok(existing.value);
      }
      workerRuns := workerRuns + 1;
      if generated.Err? {
        return Err(WorkerFailed(generated.error));
      }
      serverKeyUploads := serverKeyUploads + [generated.value.compressedServerKey];
      keyStore := keyStore[docId := generated.value.clientKey];
      r := Ok(generated.value.clientKey);
    }

    /** `createDocument` with the fresh id `docId`: the key is ensured (the
        worker runs only when no usable key is stored) and saved again under
        `docId`, and an empty document stamped `now` becomes current. A worker
        failure is rethrown after the worker ran, with the key store, the
        uploads and the current document unchanged. */
    method CreateDocument(docId: string, generated: Result<KeyPair, string>, now: int) returns (r: Result<Document, ServiceError>)
      modifies this`keyStore, this`workerRuns, this`serverKeyUploads, this`currentDocument
      ensures old(KeyOf(docId)).Some? ==>
        && r.Ok? && keyStore == old(keyStore)
        && workerRuns == old(workerRuns) && serverKeyUploads == old(serverKeyUploads)
      ensures old(KeyOf(docId)).None? ==> workerRuns == old(workerRuns) + 1
      ensures old(KeyOf(docId)).None? && generated.Err? ==>
        && r == Err(WorkerFailed(generated.error))
        && keyStore == old(keyStore) && serverKeyUploads == old(serverKeyUploads)
        && currentDocument == old(currentDocument)
      ensures old(KeyOf(docId)).None? && generated.Ok? ==>
        && r.Ok?
        && keyStore == old(keyStore)[docId := generated.value.clientKey]
        && serverKeyUploads == old(serverKeyUploads) + [generated.value.compressedServerKey]
      ensures r.Ok? ==>
        && r.value == Document(docId, [], now, None)
        && currentDocument == Some(r.value)
    {
      var key := EnsureClientKey(docId, generated);
      if key.Err? {
        return Err(key.error);
      }
      keyStore := keyStore[docId := key.value];
      var document := Document(docId, [], now, None);
      currentDocument := Some(document);
      r := Ok(document);
    }

    /** `loadDocument` on the query of a share URL: an unusable URL is
        refused; otherwise the selection is fetched (its failure rethrown) and
        an empty document with the URL's id becomes current. The key in the
        URL is not stored. */
    method LoadDocument(query: Option<map<string, string>>, resp: HttpResponse<WsServerSelected>, now: int)
      returns (r: Result<Document, ServiceError>)
      modifies this`currentDocument
      ensures ParseShareUrl(query).None? ==> r == Err(InvalidShareUrl) && currentDocument == old(currentDocument)
      ensures ParseShareUrl(query).Some? && GetDocument(resp).Err? ==>
        r == Err(Transport(GetDocument(resp).error)) && currentDocument == old(currentDocument)
      ensures ParseShareUrl(query).Some? && GetDocument(resp).Ok? ==>
        && r == Ok(Document(ParseShareUrl(query).value.0, [], now, None))
        && currentDocument == Some(r.value)
    {
      var urlData := ParseShareUrl(query);
      if urlData.None? {
        return Err(InvalidShareUrl);
      }
      var selected := GetDocument(resp);
      if selected.Err? {
        return Err(Transport(selected.error));
      }
      var document := Document(urlData.value.0, [], now, None);
      currentDocument := Some(document);
      r := Ok(document);
    }
  }
}
