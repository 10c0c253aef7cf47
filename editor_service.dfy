/** The editor binding: the current text and cursor line, listeners for text
    changes, and a debounce that holds at most one pending emission. The
    debounce timer is the `pending` slot; its expiry is the `FireDebounce`
    event. Listeners are named by number and every call they receive is
    recorded in `delivered`. */
module Editor {
  import opened FheTypes

  /** One call of a text-change listener. */
  datatype Delivery = Delivery(listener: nat, text: string)

  /** One call of each listener with `text`, in registration order. */
  function Broadcast(listeners: seq<nat>, text: string): (ds: seq<Delivery>)
    ensures |ds| == |listeners|
    ensures forall i :: 0 <= i < |ds| ==> ds[i] == Delivery(listeners[i], text)
  {
    if listeners == [] then []
    else [Delivery(listeners[0], text)] + Broadcast(listeners[1..], text)
  }

  class EditorService {
    var callbacks: seq<nat>
    /** The text of the emission the debounce timer is holding, if any. */
    var pending: Option<string>
    var currentText: string
    var currentCursorLine: int
    var delivered: seq<Delivery>

    constructor ()
      ensures callbacks == [] && pending == None && delivered == []
      ensures currentText == "" && currentCursorLine == 0
    {
      callbacks := [];
      pending := None;
      currentText := "";
      currentCursorLine := 0;
      delivered := [];
    }

    /** `initializeEditor`: the text and the cursor line, 0 unless given. */
    method InitializeEditor(initialText: string, cursorLine: int := 0)
      modifies this`currentText, this`currentCursorLine
      ensures currentText == initialText && currentCursorLine == cursorLine
    {
      currentText := initialText;
      currentCursorLine := cursorLine;
    }

    /** `onTextChange`: registrations accumulate in order. */
    method OnTextChange(listener: nat)
      modifies this`callbacks
      ensures callbacks == old(callbacks) + [listener]
    {
      callbacks := callbacks + [listener];
    }

    /** `emitTextChange`: any pending emission is cancelled and replaced by
        one for `text`; nothing is delivered yet. */
    method EmitTextChange(text: string)
      modifies this`pending
      ensures pending == Some(text)
    {
      pending := Some(text);
    }

    /** The debounce timer expires: every listener receives the pending text,
        in registration order, and the slot empties. */
    method FireDebounce()
      requires pending.Some?
      modifies this`pending, this`delivered
      ensures delivered == old(delivered) + Broadcast(callbacks, old(pending).value)
      ensures pending == None
    {
      var text := pending.value;
      var i := 0;
      while i < |callbacks|
        invariant 0 <= i <= |callbacks|
        invariant delivered == old(delivered) + Broadcast(callbacks[..i], text)
      {
        assert Broadcast(callbacks[..i + 1], text) == Broadcast(callbacks[..i], text) + [Delivery(callbacks[i], text)];
        delivered := delivered + [Delivery(callbacks[i], text)];
        i := i + 1;
      }
      assert callbacks[..i] == callbacks;
      pending := None;
    }

    /** `updateText`: an external update replaces the text only. */
    method UpdateText(text: string)
      modifies this`currentText
      ensures currentText == text
    {
      currentText := text;
    }

    /** `setCursorLine`: the line is stored as given, negative or not. */
    method SetCursorLine(line: int)
      modifies this`currentCursorLine
      ensures currentCursorLine == line
    {
      currentCursorLine := line;
    }

    /** `destroy`: the pending emission is cancelled, the listeners dropped and
        the text and cursor reset. The outcome does not depend on the state
        before, so a second call changes nothing. */
    method Destroy()
      modifies this`pending, this`callbacks, this`currentText, this`currentCursorLine
      ensures pending == None && callbacks == []
      ensures currentText == "" && currentCursorLine == 0
    {
      if pending.Some? {
        pending := None;
      }
      callbacks := [];
      currentText := "";
      currentCursorLine := 0;
    }
  }

  /** Three rapid emissions are delivered once, with the last text. */
  method RapidEmissionsDeliverLast() returns (log: seq<Delivery>)
    ensures log == [Delivery(1, "text3")]
  {
    var e := new EditorService();
    e.OnTextChange(1);
    e.EmitTextChange("text1");
    e.EmitTextChange("text2");
    e.EmitTextChange("text3");
    e.FireDebounce();
    log := e.delivered;
  }

  /** An emission reaches every registered listener, in order. */
  method EmissionReachesAllListeners() returns (log: seq<Delivery>)
    ensures log == [Delivery(1, "test text"), Delivery(2, "test text")]
  {
    var e := new EditorService();
    e.OnTextChange(1);
    e.OnTextChange(2);
    e.EmitTextChange("test text");
    e.FireDebounce();
    log := e.delivered;
  }

  /** `destroy`, called twice, cancels a pending emission, drops every
      listener and resets the text and cursor; a later emission reaches
      nobody. */
  method DestroyDropsListeners() returns (listeners: seq<nat>, text: string, line: int, after: seq<Delivery>)
    ensures listeners == [] && text == "" && line == 0
    ensures after == []
  {
    var e := new EditorService();
    e.OnTextChange(1);
    e.OnTextChange(2);
    e.InitializeEditor("some text", 5);
    e.EmitTextChange("test");
    e.Destroy();
    e.Destroy();
    listeners, text, line := e.callbacks, e.currentText, e.currentCursorLine;
    e.EmitTextChange("later");
    e.FireDebounce();
    after := e.delivered;
  }
}
