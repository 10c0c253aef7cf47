/** The sync server, over plaintext nibbles: every ciphertext it handles is
    read as the message it encrypts, and every homomorphic operation as the
    operation on messages. Over those messages the server keeps, per document,
    the digits of the greatest timestamp seen and of the id sent with it
    (last writer wins), stores content bodies by their decimal content id and
    expires them after a time to live. */
module Server {
  import opened FheTypes
  import opened Digits

  // ---------------------------------------------------------------------------
  // Homomorphic primitives on messages
  // ---------------------------------------------------------------------------

  function BitAnd(x: Nibble, y: Nibble): Nibble
  {
    ((x as bv4) & (y as bv4)) as int
  }

  function BitOr(x: Nibble, y: Nibble): Nibble
  {
    ((x as bv4) | (y as bv4)) as int
  }

  function BitXor(x: Nibble, y: Nibble): Nibble
  {
    ((x as bv4) ^ (y as bv4)) as int
  }

  /** `unchecked_greater`: 1 when `x > y`, else 0. */
  function Greater(x: Nibble, y: Nibble): Nibble
  {
    if x > y then 1 else 0
  }

  /** `unchecked_equal`: 1 when `x == y`, else 0. */
  function Equal(x: Nibble, y: Nibble): Nibble
  {
    if x == y then 1 else 0
  }

  /** `shortint_gt_digits`: one pass over the digit pairs, most significant
      first, keeping "all digits so far equal" and "greater so far". The result
      is 1 exactly when `a` is the greater number and 0 otherwise, equality
      included. */
  method GtDigits(a: seq<Nibble>, b: seq<Nibble>) returns (res: Nibble)
    requires |a| == |b|
    ensures res == 1 <==> Value(a) > Value(b)
    ensures res == 0 <==> Value(a) <= Value(b)
  {
    var eqPrefix: Nibble := 1;
    res := 0;
    var i := 0;
    while i < |a|
      invariant 0 <= i <= |a|
      invariant eqPrefix == (if Value(a[..i]) == Value(b[..i]) then 1 else 0)
      invariant res == (if Value(a[..i]) > Value(b[..i]) then 1 else 0)
    {
      var gt := Greater(a[i], b[i]);
      var eq := Equal(a[i], b[i]);
      var term := BitAnd(eqPrefix, gt);
      res := BitOr(res, term);
      eqPrefix := BitAnd(eqPrefix, eq);
      assert a[..i + 1][..i] == a[..i] && b[..i + 1][..i] == b[..i];
      LexStep(Value(a[..i]), Value(b[..i]), a[i], b[i]);
      i := i + 1;
    }
    assert a[..i] == a && b[..i] == b;
  }

  /** `shortint_mux`: `(sel AND x) OR ((1 XOR sel) AND y)`, the ANDs done by a
      bivariate lookup table `(s, v) -> if s == 1 then v else 0`. A selector of
      1 picks `x` and a selector of 0 picks `y`. */
  function Mux(sel: Nibble, x: Nibble, y: Nibble): (r: Nibble)
    ensures sel == 1 ==> r == x
    ensures sel == 0 ==> r == y
  {
    var notSel := BitXor(1, sel);
    var a := if sel == 1 then x else 0;
    var b := if notSel == 1 then y else 0;
    BitOr(a, b)
  }

  /** The digit-wise mux over two zipped digit vectors (a zip stops at the
      shorter one). */
  function MuxDigits(sel: Nibble, xs: seq<Nibble>, ys: seq<Nibble>): (r: seq<Nibble>)
    ensures |r| == if |xs| < |ys| then |xs| else |ys|
    ensures sel == 1 ==> r == xs[..|r|]
    ensures sel == 0 ==> r == ys[..|r|]
  {
    var n := if |xs| < |ys| then |xs| else |ys|;
    seq(n, i requires 0 <= i < n => Mux(sel, xs[i], ys[i]))
  }

  /** The `fix_len` closure: exactly `len` digits, either left-padded with zero
      digits (the value is kept) or cut down to the last `len` digits. */
  function FixLen(v: seq<Nibble>, len: nat): (r: seq<Nibble>)
    ensures |r| == len
    ensures |v| <= len ==> r[len - |v|..] == v && r[..len - |v|] == Zeros(len - |v|)
    ensures |v| >= len ==> r == v[|v| - len..]
  {
    if |v| < len then Zeros(len - |v|) + v
    else if |v| > len then v[|v| - len..]
    else v
  }

  /** Padding keeps the value; cutting keeps the low digits, the dropped high
      digits being worth a multiple of `16^len`. */
  lemma FixLenValue(v: seq<Nibble>, len: nat)
    ensures |v| <= len ==> Value(FixLen(v, len)) == Value(v)
    ensures |v| >= len ==>
      Value(v) == Value(v[..|v| - len]) * Pow16(len) + Value(FixLen(v, len))
  {
    if |v| < len {
      ValuePadded(len - |v|, v);
    } else {
      assert v == v[..|v| - len] + v[|v| - len..];
      ValueAppend(v[..|v| - len], v[|v| - len..]);
    }
  }

  // ---------------------------------------------------------------------------
  // Last-writer-wins selection
  // ---------------------------------------------------------------------------

  /** What the server keeps per document: the selected id and timestamp. */
  datatype DocumentState = DocumentState(docId: string, selectedId: seq<Nibble>, selectedTs: seq<Nibble>)

  /** A client update as the server sees it, each ciphertext read as its message. */
  datatype UpdateView = UpdateView(
    docId: string,
    ts: seq<Nibble>,
    id: seq<Nibble>,
    contentId: string,
    content: seq<Nibble>)

  /** The selected-version message, each ciphertext read as its message. */
  datatype SelectedView = SelectedView(docId: string, selectedId: seq<Nibble>)

  /** Specification of the update of a document record: a first update is
      stored as it comes (normalised to 16 digits); a later one replaces the
      record only when its timestamp is strictly greater. */
  function SelectLatest(existing: Option<DocumentState>, docId: string, ts: seq<Nibble>, id: seq<Nibble>): DocumentState
  {
    var newTs := FixLen(ts, TIMESTAMP_DIGITS);
    var newId := FixLen(id, TIMESTAMP_DIGITS);
    match existing
    case None => DocumentState(docId, newId, newTs)
    case Some(prev) =>
      var oldTs := FixLen(prev.selectedTs, TIMESTAMP_DIGITS);
      var oldId := FixLen(prev.selectedId, TIMESTAMP_DIGITS);
      if Value(newTs) > Value(oldTs) then DocumentState(docId, newId, newTs)
      else DocumentState(docId, oldId, oldTs)
  }

  /** The value of a timestamp once normalised to 16 digits. */
  function TsValue(ts: seq<Nibble>): int
  {
    Value(FixLen(ts, TIMESTAMP_DIGITS))
  }

  /** The stored timestamp is the maximum of the old and the new one, so it
      never decreases; the stored id is the one that came with the winning
      timestamp, and a tie keeps the old id. */
  lemma SelectLatestIsLww(prev: DocumentState, docId: string, ts: seq<Nibble>, id: seq<Nibble>)
    requires |prev.selectedTs| == TIMESTAMP_DIGITS && |prev.selectedId| == TIMESTAMP_DIGITS
    ensures var r := SelectLatest(Some(prev), docId, ts, id);
      && |r.selectedTs| == TIMESTAMP_DIGITS && |r.selectedId| == TIMESTAMP_DIGITS
      && r.docId == docId
      && Value(r.selectedTs) == (if TsValue(ts) > Value(prev.selectedTs) then TsValue(ts) else Value(prev.selectedTs))
      && (TsValue(ts) > Value(prev.selectedTs) ==>
            r.selectedId == FixLen(id, TIMESTAMP_DIGITS) && r.selectedTs == FixLen(ts, TIMESTAMP_DIGITS))
      && (TsValue(ts) <= Value(prev.selectedTs) ==>
            r.selectedId == prev.selectedId && r.selectedTs == prev.selectedTs)
  {
    assert FixLen(prev.selectedTs, TIMESTAMP_DIGITS) == prev.selectedTs;
    assert FixLen(prev.selectedId, TIMESTAMP_DIGITS) == prev.selectedId;
  }

  /** One client update as far as selection is concerned. */
  datatype Stamp = Stamp(ts: seq<Nibble>, id: seq<Nibble>)

  /** The record after the server has handled `us` in order for one document. */
  function Replay(existing: Option<DocumentState>, docId: string, us: seq<Stamp>): Option<DocumentState>
    decreases |us|
  {
    if us == [] then existing
    else Replay(Some(SelectLatest(existing, docId, us[0].ts, us[0].id)), docId, us[1..])
  }

  function MaxTs(us: seq<Stamp>): int
    requires |us| > 0
    decreases |us|
  {
    if |us| == 1 then TsValue(us[0].ts)
    else
      var rest := MaxTs(us[1..]);
      if TsValue(us[0].ts) >= rest then TsValue(us[0].ts) else rest
  }

  /** `MaxTs` is attained, first at some index, and bounds every timestamp. */
  lemma {:induction false} MaxTsFirst(us: seq<Stamp>) returns (i: nat)
    requires |us| > 0
    ensures i < |us| && TsValue(us[i].ts) == MaxTs(us)
    ensures forall j :: 0 <= j < i ==> TsValue(us[j].ts) < MaxTs(us)
    ensures forall j :: 0 <= j < |us| ==> TsValue(us[j].ts) <= MaxTs(us)
    decreases |us|
  {
    if |us| == 1 {
      return 0;
    }
    var k := MaxTsFirst(us[1..]);
    if TsValue(us[0].ts) >= MaxTs(us[1..]) {
      i := 0;
    } else {
      i := k + 1;
    }
    forall j | 0 <= j < |us|
      ensures TsValue(us[j].ts) <= MaxTs(us)
    {
      if j > 0 {
        assert us[j] == us[1..][j - 1];
      }
    }
  }

  /** Last writer wins over any sequence of updates to a record: the stored
      timestamp ends as the greatest one seen, and the stored id is the one
      sent with the earliest update carrying that timestamp (or the old id
      when no update beat the stored timestamp). */
  lemma {:induction false} ReplayIsLww(prev: DocumentState, docId: string, us: seq<Stamp>)
    requires |prev.selectedTs| == TIMESTAMP_DIGITS && |prev.selectedId| == TIMESTAMP_DIGITS
    requires |us| > 0
    ensures Replay(Some(prev), docId, us).Some?
    ensures var r := Replay(Some(prev), docId, us).value;
      && |r.selectedTs| == TIMESTAMP_DIGITS && |r.selectedId| == TIMESTAMP_DIGITS
      && Value(r.selectedTs) == (if MaxTs(us) > Value(prev.selectedTs) then MaxTs(us) else Value(prev.selectedTs))
      && (MaxTs(us) <= Value(prev.selectedTs) ==> r.selectedId == prev.selectedId)
      && (MaxTs(us) > Value(prev.selectedTs) ==>
            exists i :: 0 <= i < |us| && TsValue(us[i].ts) == MaxTs(us)
              && (forall j :: 0 <= j < i ==> TsValue(us[j].ts) < MaxTs(us))
              && r.selectedId == FixLen(us[i].id, TIMESTAMP_DIGITS))
    decreases |us|
  {
    var next := SelectLatest(Some(prev), docId, us[0].ts, us[0].id);
    SelectLatestIsLww(prev, docId, us[0].ts, us[0].id);
    if |us| == 1 {
      assert Replay(Some(prev), docId, us) == Replay(Some(next), docId, []);
      if MaxTs(us) > Value(prev.selectedTs) {
        assert TsValue(us[0].ts) == MaxTs(us);
      }
      return;
    }
    var rest := us[1..];
    assert Replay(Some(prev), docId, us) == Replay(Some(next), docId, rest);
    ReplayIsLww(next, docId, rest);
    var r := Replay(Some(prev), docId, us).value;
    if MaxTs(us) > Value(prev.selectedTs) {
      if TsValue(us[0].ts) >= MaxTs(rest) {
        // the first update carries the maximum; no later one beats it
        assert r.selectedId == next.selectedId;
        assert TsValue(us[0].ts) == MaxTs(us);
      } else {
        var k :| 0 <= k < |rest| && TsValue(rest[k].ts) == MaxTs(rest)
          && (forall j :: 0 <= j < k ==> TsValue(rest[j].ts) < MaxTs(rest))
          && r.selectedId == FixLen(rest[k].id, TIMESTAMP_DIGITS);
        assert us[k + 1] == rest[k];
        forall j | 0 <= j < k + 1
          ensures TsValue(us[j].ts) < MaxTs(us)
        {
          if j > 0 {
            assert us[j] == rest[j - 1];
          }
        }
      }
    }
  }

  /** A record created by the first of `us` ends with the greatest timestamp
      of all of them, and the id of the earliest update carrying it. */
  lemma ReplayFromNothing(docId: string, us: seq<Stamp>)
    requires |us| > 0
    ensures Replay(None, docId, us).Some?
    ensures var r := Replay(None, docId, us).value;
      && Value(r.selectedTs) == MaxTs(us)
      && exists i :: 0 <= i < |us| && TsValue(us[i].ts) == MaxTs(us)
           && (forall j :: 0 <= j < i ==> TsValue(us[j].ts) < MaxTs(us))
           && r.selectedId == FixLen(us[i].id, TIMESTAMP_DIGITS)
  {
    var first := SelectLatest(None, docId, us[0].ts, us[0].id);
    assert Value(first.selectedTs) == TsValue(us[0].ts);
    assert Replay(None, docId, us) == Replay(Some(first), docId, us[1..]);
    if |us| == 1 {
      assert Replay(None, docId, us).value == first;
      assert TsValue(us[0].ts) == MaxTs(us);
      return;
    }
    ReplayFromFirst(docId, us, first);
  }

  /** The inductive step of `ReplayFromNothing`: the first update's record
      followed by the rest of the run. */
  lemma ReplayFromFirst(docId: string, us: seq<Stamp>, first: DocumentState)
    requires |us| > 1
    requires first == SelectLatest(None, docId, us[0].ts, us[0].id)
    requires Value(first.selectedTs) == TsValue(us[0].ts)
    ensures Replay(Some(first), docId, us[1..]).Some?
    ensures var r := Replay(Some(first), docId, us[1..]).value;
      && Value(r.selectedTs) == MaxTs(us)
      && exists i :: 0 <= i < |us| && TsValue(us[i].ts) == MaxTs(us)
           && (forall j :: 0 <= j < i ==> TsValue(us[j].ts) < MaxTs(us))
           && r.selectedId == FixLen(us[i].id, TIMESTAMP_DIGITS)
  {
    var rest := us[1..];
    ReplayIsLww(first, docId, rest);
    var r := Replay(Some(first), docId, rest).value;
    if MaxTs(rest) > Value(first.selectedTs) {
      assert MaxTs(us) == MaxTs(rest);
      var k :| 0 <= k < |rest| && TsValue(rest[k].ts) == MaxTs(rest)
        && (forall j :: 0 <= j < k ==> TsValue(rest[j].ts) < MaxTs(rest))
        && r.selectedId == FixLen(rest[k].id, TIMESTAMP_DIGITS);
      assert us[k + 1] == rest[k];
      forall j | 0 <= j < k + 1
        ensures TsValue(us[j].ts) < MaxTs(us)
      {
        if j > 0 {
          assert us[j] == rest[j - 1];
        }
      }
      assert TsValue(us[k + 1].ts) == MaxTs(us) && r.selectedId == FixLen(us[k + 1].id, TIMESTAMP_DIGITS);
    } else {
      assert MaxTs(us) == TsValue(us[0].ts);
      assert r.selectedId == first.selectedId;
    }
  }

  /** The record-update block of the socket loop: both digit vectors are
      normalised to 16 digits and, when the document has a record, the new
      timestamp and id are muxed against the old ones under the encrypted
      "new timestamp is greater" bit. */
  method SelectRecord(existing: Option<DocumentState>, docId: string, ts: seq<Nibble>, id: seq<Nibble>)
    returns (rec: DocumentState)
    ensures rec == SelectLatest(existing, docId, ts, id)
  {
    var newTs := FixLen(ts, TIMESTAMP_DIGITS);
    var newId := FixLen(id, TIMESTAMP_DIGITS);
    if existing.None? {
      return DocumentState(docId, newId, newTs);
    }
    var oldTs := FixLen(existing.value.selectedTs, TIMESTAMP_DIGITS);
    var oldId := FixLen(existing.value.selectedId, TIMESTAMP_DIGITS);
    var sel := GtDigits(newTs, oldTs);
    var muxTs := MuxDigits(sel, newTs, oldTs);
    var muxId := MuxDigits(sel, newId, oldId);
    assert newTs[..|muxTs|] == newTs && oldTs[..|muxTs|] == oldTs;
    assert newId[..|muxId|] == newId && oldId[..|muxId|] == oldId;
    rec := DocumentState(docId, muxId, muxTs);
  }

  /** The content-storing block: cut to 128 entries, then pushed trivial
      zeros until there are 128. */
  method NormalizeContent(content: seq<Nibble>) returns (nibbles: seq<Nibble>)
    ensures nibbles == PadTo(content, CONTENT_NIBBLES)
  {
    nibbles := content;
    if |nibbles| > CONTENT_NIBBLES {
      nibbles := nibbles[..CONTENT_NIBBLES];
    }
    while |nibbles| < CONTENT_NIBBLES
      invariant |nibbles| <= CONTENT_NIBBLES
      invariant nibbles == PadTo(content, CONTENT_NIBBLES)[..|nibbles|]
      decreases CONTENT_NIBBLES - |nibbles|
    {
      nibbles := nibbles + [0];
    }
    assert nibbles == PadTo(content, CONTENT_NIBBLES)[..CONTENT_NIBBLES];
  }

  // ---------------------------------------------------------------------------
  // Server state
  // ---------------------------------------------------------------------------

  /** A message pushed into a document room's broadcast channel. */
  datatype Broadcast = Broadcast(room: string, message: SelectedView)

  /** Contents older than this are dropped by the collector (300 s, in ms). */
  const CONTENT_TTL_MS: int := 300_000

  /** The ids whose creation time is more than the time to live before `now`. */
  function Expired(created: map<string, int>, now: int): (ids: set<string>)
    ensures ids <= created.Keys
  {
    set k | k in created && now - created[k] > CONTENT_TTL_MS
  }

  /** The shared `AppState`, minus the lock wrappers and the database handle. */
  class SyncServer {
    /** Whether an evaluation (server) key is installed. */
    var hasServerKey: bool
    var documents: map<string, DocumentState>
    var contents: map<string, seq<Nibble>>
    /** Creation (or last read) time of every stored content, in ms. */
    var contentCreated: map<string, int>
    /** Broadcast channel of every document room, by channel number. */
    var rooms: map<string, nat>
    var nextChannel: nat
    /** Every message sent into a room channel, in order. */
    var broadcasts: seq<Broadcast>

    ghost predicate Valid()
      reads this
    {
      && contents.Keys == contentCreated.Keys
      && (forall c :: c in contents ==> |contents[c]| == CONTENT_NIBBLES)
      && (forall d :: d in documents ==>
            && documents[d].docId == d
            && |documents[d].selectedTs| == TIMESTAMP_DIGITS
            && |documents[d].selectedId| == TIMESTAMP_DIGITS)
      && (forall d :: d in rooms ==> rooms[d] < nextChannel)
    }

    /** The state at boot: empty maps; the key is present when one was restored. */
    constructor (restoredKey: bool)
      ensures Valid()
      ensures hasServerKey == restoredKey
      ensures documents == map[] && contents == map[] && contentCreated == map[]
      ensures rooms == map[] && broadcasts == []
    {
      hasServerKey := restoredKey;
      documents := map[];
      contents := map[];
      contentCreated := map[];
      rooms := map[];
      nextChannel := 0;
      broadcasts := [];
    }

    /** `ensure_room`: the room's channel, created only when the room is new. */
    method EnsureRoom(docId: string) returns (channel: nat)
      requires Valid()
      modifies this`rooms, this`nextChannel
      ensures Valid()
      ensures docId in old(rooms) ==> rooms == old(rooms) && channel == rooms[docId]
      ensures docId !in old(rooms) ==>
        && rooms == old(rooms)[docId := channel]
        && (forall d :: d in old(rooms) ==> old(rooms)[d] != channel)
    {
      if docId in rooms {
        channel := rooms[docId];
        return;
      }
      channel := nextChannel;
      nextChannel := nextChannel + 1;
      rooms := rooms[docId := channel];
    }

    /** Joining a room: `ensure_room`, then the document's current selection,
        if it has one, as the first message. */
    method Join(docId: string) returns (channel: nat, initial: Option<SelectedView>)
      requires Valid()
      modifies this`rooms, this`nextChannel
      ensures Valid()
      ensures docId in old(rooms) ==> rooms == old(rooms) && channel == rooms[docId]
      ensures docId !in old(rooms) ==> rooms == old(rooms)[docId := channel]
      ensures docId in documents <==> initial.Some?
      ensures docId in documents ==>
        initial.value == SelectedView(documents[docId].docId, documents[docId].selectedId)
    {
      channel := EnsureRoom(docId);
      if docId in documents {
        var rec := documents[docId];
        initial := Some(SelectedView(rec.docId, rec.selectedId));
      } else {
        initial := None;
      }
    }

    /** One inbound text frame on the socket of room `room`, already parsed
        (`None` when it is not a client update), received at time `now`.
        Without a server key nothing happens. Otherwise the record of the
        update's document becomes `SelectLatest` of the old one, the content
        is stored cut or zero-padded to 128 nibbles, its creation time set,
        and the selected id is broadcast into the room. */
    method HandleUpdate(room: string, parsed: Option<UpdateView>, now: int)
      requires Valid()
      modifies this`documents, this`contents, this`contentCreated, this`broadcasts
      ensures Valid()
      ensures parsed.None? || !hasServerKey ==>
        && documents == old(documents) && contents == old(contents)
        && contentCreated == old(contentCreated) && broadcasts == old(broadcasts)
      ensures parsed.Some? && hasServerKey ==>
        var u := parsed.value;
        var rec := SelectLatest(if u.docId in old(documents) then Some(old(documents)[u.docId]) else None, u.docId, u.ts, u.id);
        && documents == old(documents)[u.docId := rec]
        && contents == old(contents)[u.contentId := PadTo(u.content, CONTENT_NIBBLES)]
        && contentCreated == old(contentCreated)[u.contentId := now]
        && broadcasts == old(broadcasts) + [Broadcast(room, SelectedView(u.docId, rec.selectedId))]
    {
      if parsed.None? {
        // inbound decode error: logged and skipped
        return;
      }
      if !hasServerKey {
        return;
      }
      var u := parsed.value;

      var existing := if u.docId in documents then Some(documents[u.docId]) else None;
      var rec := SelectRecord(existing, u.docId, u.ts, u.id);
      documents := documents[u.docId := rec];

      var nibbles := NormalizeContent(u.content);
      contents := contents[u.contentId := nibbles];
      contentCreated := contentCreated[u.contentId := now];

      broadcasts := broadcasts + [Broadcast(room, SelectedView(rec.docId, rec.selectedId))];
    }

    /** `get_content`: refresh the creation time of a known id only, and answer
        the stored nibbles, or an empty list for an unknown id. */
    method GetContent(contentId: string, now: int) returns (cts: seq<Nibble>)
      requires Valid()
      modifies this`contentCreated
      ensures Valid()
      ensures contentId in old(contentCreated) ==> contentCreated == old(contentCreated)[contentId := now]
      ensures contentId !in old(contentCreated) ==> contentCreated == old(contentCreated)
      ensures contentId in contents ==> cts == contents[contentId]
      ensures contentId !in contents ==> cts == []
    {
      if contentId in contentCreated {
        contentCreated := contentCreated[contentId := now];
      }
      if contentId in contents {
        cts := contents[contentId];
      } else {
        cts := [];
      }
    }

    /** One round of the TTL collector at time `now`: exactly the expired ids
        leave both `contents` and `contentCreated`. */
    method CollectGarbage(now: int)
      requires Valid()
      modifies this`contents, this`contentCreated
      ensures Valid()
      ensures contents == old(contents) - Expired(old(contentCreated), now)
      ensures contentCreated == old(contentCreated) - Expired(old(contentCreated), now)
    {
      var expired := Expired(contentCreated, now);
      if expired == {} {
        assert contents == contents - expired;
        assert contentCreated == contentCreated - expired;
        return;
      }
      var rest := expired;
      while rest != {}
        invariant rest <= expired
        invariant contents == old(contents) - (expired - rest)
        invariant contentCreated == old(contentCreated) - (expired - rest)
        decreases rest
      {
        var k :| k in rest;
        contents := contents - {k};
        contentCreated := contentCreated - {k};
        rest := rest - {k};
      }
      assert expired - rest == expired;
    }
  }
}
