/** The client side of the realtime transport: one WebSocket per connect, an
    ordered list of update listeners, and the reconnect state machine driven
    by close events and timers. Every asynchronous step (a socket opening or
    failing, a close event, a timer firing) is a method call of its own, and
    what the network answers is a parameter of that call. Listeners are named
    by number; what reaches them, and what goes out on the socket, is
    recorded in `trace`. */
module SyncClient {
  import opened FheTypes

  const MAX_RECONNECT_ATTEMPTS: int := 5
  const RECONNECT_DELAY_MS: int := 1000

  datatype ReadyState = Open | Closed

  /** A socket and the document id its handlers were created for. */
  datatype Socket = Socket(docId: string, state: ReadyState)

  /** A scheduled reconnect step: `Resync` fetches the latest selection and
      then reconnects (the close handler's timer); `Retry` only reconnects
      (the timer set when a resync fails). */
  datatype Timer =
    | Resync(docId: string, delay: int)
    | Retry(docId: string, delay: int)

  datatype Event =
    | Delivered(listener: nat, message: WsServerSelected)
    | ConnectIssued(docId: string)
    | Sent(update: WsClientUpdate)

  datatype FetchFailure = NotOk(status: int) | Unreachable | Unparsable

  datatype ClientError =
    | ConnectFailed
    | SocketNotOpen
    | NoDocument
    | GetDocumentFailed(reason: FetchFailure)

  /** `getDocument` once the HTTP response is known: the parsed selection of
      an ok response, otherwise an error naming why. */
  function GetDocument(resp: HttpResponse<WsServerSelected>): (r: Result<WsServerSelected, ClientError>)
    ensures r.Ok? <==> resp.Response? && resp.ok && resp.json.Some?
    ensures r.Ok? ==> r.value == resp.json.value
    ensures resp.NetworkFailure? ==> r == Err(GetDocumentFailed(Unreachable))
    ensures resp.Response? && !resp.ok ==> r == Err(GetDocumentFailed(NotOk(resp.status)))
    ensures resp.Response? && resp.ok && resp.json.None? ==> r == Err(GetDocumentFailed(Unparsable))
  {
    match resp
    case NetworkFailure => Err(GetDocumentFailed(Unreachable))
    case Response(ok, status, json) =>
      if !ok then Err(GetDocumentFailed(NotOk(status)))
      else if json.None? then Err(GetDocumentFailed(Unparsable))
      else Ok(json.value)
  }

  /** One delivery of `msg` to each listener, in registration order. */
  function Deliveries(listeners: seq<nat>, msg: WsServerSelected): (es: seq<Event>)
    ensures |es| == |listeners|
    ensures forall i :: 0 <= i < |es| ==> es[i] == Delivered(listeners[i], msg)
  {
    if listeners == [] then []
    else [Delivered(listeners[0], msg)] + Deliveries(listeners[1..], msg)
  }

  /** The timer a failed resync leaves behind after the counter reached `n`:
      one more attempt, delayed by `n` seconds, while `n` is under the budget. */
  function RetryAfterFailure(docId: string, n: int): seq<Timer>
  {
    if n < MAX_RECONNECT_ATTEMPTS then [Retry(docId, RECONNECT_DELAY_MS * n)] else []
  }

  /** `s` with entry `k` taken out. */
  function Without<T>(s: seq<T>, k: nat): (r: seq<T>)
    requires k < |s|
    ensures |r| == |s| - 1
    ensures k == 0 ==> r == s[1..]
  {
    s[..k] + s[k + 1..]
  }

  class WebSocketSyncClient {
    var ws: Option<Socket>
    var documentId: Option<string>
    var callbacks: seq<nat>
    var reconnectAttempts: int
    /** Timers scheduled and not yet fired. */
    var timers: seq<Timer>
    /** Sockets that have closed and whose close handler has not run yet,
        by the document id that handler captured. */
    var closing: seq<string>
    var trace: seq<Event>

    constructor ()
      ensures ws == None && documentId == None && callbacks == []
      ensures reconnectAttempts == 0 && timers == [] && closing == [] && trace == []
    {
      ws := None;
      documentId := None;
      callbacks := [];
      reconnectAttempts := 0;
      timers := [];
      closing := [];
      trace := [];
    }

    /** `connect`: a new socket for `docId`. When it opens (`opens`), the
        reconnect counter is reset and the promise resolves; when it fails, the
        promise rejects and the socket's close event is still to come. */
    method Connect(docId: string, opens: bool) returns (r: Result<(), ClientError>)
      modifies this
      ensures documentId == Some(docId)
      ensures ws == Some(Socket(docId, if opens then Open else Closed))
      ensures trace == old(trace) + [ConnectIssued(docId)]
      ensures callbacks == old(callbacks) && timers == old(timers)
      ensures opens ==> r.Ok? && reconnectAttempts == 0 && closing == old(closing)
      ensures !opens ==>
        && r == Err(ConnectFailed)
        && reconnectAttempts == old(reconnectAttempts)
        && closing == old(closing) + [docId]
    {
      documentId := Some(docId);
      trace := trace + [ConnectIssued(docId)];
      if opens {
        ws := Some(Socket(docId, Open));
        reconnectAttempts := 0;
        r := Ok(());
      } else {
        ws := Some(Socket(docId, Closed));
        closing := closing + [docId];
        r := Err(ConnectFailed);
      }
    }

    /** The open socket is closed by the other side; its close event follows. */
    method Drop()
      requires ws.Some? && ws.value.state == Open
      modifies this`ws, this`closing
      ensures ws == Some(Socket(old(ws).value.docId, Closed))
      ensures closing == old(closing) + [old(ws).value.docId]
    {
      closing := closing + [ws.value.docId];
      ws := Some(Socket(ws.value.docId, Closed));
    }

    /** The `onclose` handler of closed socket `k`: while the counter is under
        the budget, a resync is scheduled with a delay of one second per
        attempt made so far (zero right after a successful open). */
    method OnClose(k: nat)
      requires k < |closing|
      modifies this`closing, this`timers
      ensures closing == Without(old(closing), k)
      ensures timers == old(timers) +
        (if reconnectAttempts < MAX_RECONNECT_ATTEMPTS
         then [Resync(old(closing)[k], RECONNECT_DELAY_MS * reconnectAttempts)]
         else [])
    {
      var docId := closing[k];
      closing := Without(closing, k);
      if reconnectAttempts < MAX_RECONNECT_ATTEMPTS {
        timers := timers + [Resync(docId, RECONNECT_DELAY_MS * reconnectAttempts)];
      }
    }

    /** Hands `msg` to every listener, in registration order. */
    method Deliver(msg: WsServerSelected)
      modifies this`trace
      ensures trace == old(trace) + Deliveries(callbacks, msg)
    {
      var i := 0;
      while i < |callbacks|
        invariant 0 <= i <= |callbacks|
        invariant trace == old(trace) + Deliveries(callbacks[..i], msg)
      {
        assert Deliveries(callbacks[..i + 1], msg) == Deliveries(callbacks[..i], msg) + [Delivered(callbacks[i], msg)];
        trace := trace + [Delivered(callbacks[i], msg)];
        i := i + 1;
      }
      assert callbacks[..i] == callbacks;
    }

    /** `onmessage`: a frame that parses goes to every listener; one that
        does not goes to none. */
    method OnMessage(parsed: Option<WsServerSelected>)
      modifies this`trace
      ensures parsed.None? ==> trace == old(trace)
      ensures parsed.Some? ==> trace == old(trace) + Deliveries(callbacks, parsed.value)
    {
      if parsed.Some? {
        Deliver(parsed.value);
      }
    }

    /** What firing timer `k` does, as written: the counter is incremented
        without looking at the budget. A resync fetches the selection (`resp`)
        and, when that succeeds, delivers it to every listener before
        reconnecting; when the fetch or the reconnect fails, one retry is
        scheduled while the counter is under the budget. A retry only
        reconnects, and nothing waits on its outcome. `opens` says whether the
        new socket opens. */
    twostate predicate TimerFired(k: nat, resp: HttpResponse<WsServerSelected>, opens: bool)
      requires k < |old(timers)|
      reads this
    {
      var doc := old(timers)[k].docId;
      var n := old(reconnectAttempts) + 1;
      var rest := Without(old(timers), k);
      && callbacks == old(callbacks)
      && (old(timers)[k].Retry? ==>
            && trace == old(trace) + [ConnectIssued(doc)]
            && documentId == Some(doc) && ws == Some(Socket(doc, if opens then Open else Closed))
            && timers == rest
            && (opens ==> reconnectAttempts == 0 && closing == old(closing))
            && (!opens ==> reconnectAttempts == n && closing == old(closing) + [doc]))
      && (old(timers)[k].Resync? && GetDocument(resp).Err? ==>
            && trace == old(trace) && ws == old(ws) && documentId == old(documentId)
            && closing == old(closing) && reconnectAttempts == n
            && timers == rest + RetryAfterFailure(doc, n))
      && (old(timers)[k].Resync? && GetDocument(resp).Ok? ==>
            && trace == old(trace) + Deliveries(callbacks, GetDocument(resp).value) + [ConnectIssued(doc)]
            && documentId == Some(doc) && ws == Some(Socket(doc, if opens then Open else Closed))
            && (opens ==> reconnectAttempts == 0 && closing == old(closing) && timers == rest)
            && (!opens ==>
                  && reconnectAttempts == n && closing == old(closing) + [doc]
                  && timers == rest + RetryAfterFailure(doc, n)))
    }

    /** Timer `k` fires, as written (see `TimerFired`). */
    method FireTimer(k: nat, resp: HttpResponse<WsServerSelected>, opens: bool)
      requires k < |timers|
      modifies this
      ensures TimerFired(k, resp, opens)
    {
      var t := timers[k];
      timers := Without(timers, k);
      reconnectAttempts := reconnectAttempts + 1;
      match t
      case Retry(doc, _) =>
        var _ := Connect(doc, opens);
      case Resync(doc, _) =>
        var latest := GetDocument(resp);
        if latest.Ok? {
          Deliver(latest.value);
          var c := Connect(doc, opens);
          if c.Ok? {
            return;
          }
        }
        timers := timers + RetryAfterFailure(doc, reconnectAttempts);
    }

    /** Timer `k` fires, with the budget checked where the counter is
        incremented: a timer that finds the budget spent is dropped and does
        nothing, any other behaves as written. The counter then never passes
        the budget. */
    method FireTimerChecked(k: nat, resp: HttpResponse<WsServerSelected>, opens: bool)
      requires k < |timers|
      modifies this
      ensures old(reconnectAttempts) <= MAX_RECONNECT_ATTEMPTS ==> reconnectAttempts <= MAX_RECONNECT_ATTEMPTS
      ensures old(reconnectAttempts) < MAX_RECONNECT_ATTEMPTS ==> TimerFired(k, resp, opens)
      ensures old(reconnectAttempts) >= MAX_RECONNECT_ATTEMPTS ==>
        && timers == Without(old(timers), k) && callbacks == old(callbacks)
        && reconnectAttempts == old(reconnectAttempts) && trace == old(trace)
        && ws == old(ws) && closing == old(closing) && documentId == old(documentId)
    {
      if reconnectAttempts >= MAX_RECONNECT_ATTEMPTS {
        timers := Without(timers, k);
        return;
      }
      FireTimer(k, resp, opens);
    }

    /** The truthiness test on `documentId`: set and not the empty string. */
    predicate HasDocument()
      reads this
    {
      documentId.Some? && documentId.value != ""
    }

    /** `sendUpdate`: refused unless the socket is open and a document (a
        non-empty id) is set. */
    method SendUpdate(update: WsClientUpdate) returns (r: Result<(), ClientError>)
      modifies this`trace
      ensures (ws.None? || ws.value.state != Open) ==> r == Err(SocketNotOpen) && trace == old(trace)
      ensures ws.Some? && ws.value.state == Open && !HasDocument() ==> r == Err(NoDocument) && trace == old(trace)
      ensures ws.Some? && ws.value.state == Open && HasDocument() ==> r.Ok? && trace == old(trace) + [Sent(update)]
    {
      if ws.None? || ws.value.state != Open {
        return Err(SocketNotOpen);
      }
      if documentId.None? || documentId.value == "" {
        return Err(NoDocument);
      }
      trace := trace + [Sent(update)];
      r := Ok(());
    }

    /** `onUpdate`: listeners accumulate in registration order. */
    method OnUpdate(listener: nat)
      modifies this`callbacks
      ensures callbacks == old(callbacks) + [listener]
    {
      callbacks := callbacks + [listener];
    }
  }

  /** A step of the schedules below: the first pending timer is a resync, its
      fetch succeeds and its reconnect fails. */
  method FailingResync(c: WebSocketSyncClient, checked: bool)
    requires |c.timers| > 0 && c.timers[0].Resync?
    requires checked ==> c.reconnectAttempts < MAX_RECONNECT_ATTEMPTS
    modifies c
    ensures c.callbacks == old(c.callbacks)
    ensures c.reconnectAttempts == old(c.reconnectAttempts) + 1
    ensures c.closing == old(c.closing) + [old(c.timers[0].docId)]
    ensures c.timers == old(c.timers[1..]) + RetryAfterFailure(old(c.timers[0].docId), c.reconnectAttempts)
  {
    var fetched := Response(true, 200, Some(WsServerSelected(c.timers[0].docId, [])));
    if checked {
      c.FireTimerChecked(0, fetched, false);
    } else {
      c.FireTimer(0, fetched, false);
    }
  }

  /** A step of the schedules below: the first pending timer is a retry and
      its reconnect fails. */
  method FailingRetry(c: WebSocketSyncClient, checked: bool)
    requires |c.timers| > 0 && c.timers[0].Retry?
    requires checked ==> c.reconnectAttempts < MAX_RECONNECT_ATTEMPTS
    modifies c
    ensures c.callbacks == old(c.callbacks)
    ensures c.reconnectAttempts == old(c.reconnectAttempts) + 1
    ensures c.closing == old(c.closing) + [old(c.timers[0].docId)]
    ensures c.timers == old(c.timers[1..])
  {
    if checked {
      c.FireTimerChecked(0, NetworkFailure, false);
    } else {
      c.FireTimer(0, NetworkFailure, false);
    }
  }

  /** The opening of both schedules: a socket opens and is dropped, then a
      resync and a retry fire and both reconnects fail. */
  method TwoFailures(checked: bool) returns (c: WebSocketSyncClient)
    ensures fresh(c)
    ensures c.reconnectAttempts == 2 && c.closing == [] && c.callbacks == []
    ensures c.timers == [Resync("doc", 1000), Resync("doc", 2000)]
  {
    c := new WebSocketSyncClient();
    var _ := c.Connect("doc", true);
    c.Drop();
    c.OnClose(0);
    assert c.timers == [Resync("doc", 0)] && c.closing == [];
    FailingResync(c, checked);
    assert c.timers == [Retry("doc", 1000)] && c.closing == ["doc"] && c.reconnectAttempts == 1;
    c.OnClose(0);
    assert c.timers == [Retry("doc", 1000), Resync("doc", 1000)] && c.closing == [];
    FailingRetry(c, checked);
    assert c.timers == [Resync("doc", 1000)] && c.closing == ["doc"] && c.reconnectAttempts == 2;
    c.OnClose(0);
  }

  /** Two more failing resyncs: each leaves a retry and, through its socket's
      close, another resync, so after four increments three timers are
      pending. */
  method FourFailures(checked: bool) returns (c: WebSocketSyncClient)
    ensures fresh(c)
    ensures c.reconnectAttempts == 4
    ensures c.timers == [Retry("doc", 3000), Resync("doc", 3000), Retry("doc", 4000)]
  {
    c := TwoFailures(checked);
    FailingResync(c, checked);
    assert c.timers == [Resync("doc", 2000), Retry("doc", 3000)] && c.closing == ["doc"];
    c.OnClose(0);
    assert c.timers == [Resync("doc", 2000), Retry("doc", 3000), Resync("doc", 3000)] && c.closing == [];
    FailingResync(c, checked);
  }

  /** A schedule of sequential events after which the counter stands at 6,
      past the budget of 5: a resync whose reconnect fails leaves two timers
      behind, the retry of its `catch` and the resync of the failed socket's
      close handler, and each timer increments the counter unconditionally.
      Every resync's fetch here answers ok; when it fails instead, only the
      retry is left behind and the counter stops at 5. */
  method ReconnectBudgetOverrun() returns (attempts: int)
    ensures attempts == MAX_RECONNECT_ATTEMPTS + 1
  {
    var c := FourFailures(false);
    FailingRetry(c, false);
    assert c.timers == [Resync("doc", 3000), Retry("doc", 4000)] && c.reconnectAttempts == 5;
    FailingResync(c, false);
    attempts := c.reconnectAttempts;
  }

  /** The same schedule with the budget checked when a timer fires: the
      counter stops at 5. */
  method ReconnectBudgetKept() returns (attempts: int)
    ensures attempts == MAX_RECONNECT_ATTEMPTS
  {
    var c := FourFailures(true);
    FailingRetry(c, true);
    assert c.timers == [Resync("doc", 3000), Retry("doc", 4000)] && c.reconnectAttempts == 5;
    c.FireTimerChecked(0, NetworkFailure, false);
    attempts := c.reconnectAttempts;
  }
}
