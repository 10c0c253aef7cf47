/** The protocol end to end: what a client encodes, read by the server as
    plaintext digits, selected and stored there, and read back by another
    client holding the same key. */
module Protocol {
  import opened FheTypes
  import opened Digits
  import opened TfheShortint
  import opened Server

  /** What the server sees of a 64-bit integer a client encrypted. */
  function SeenDigits(key: ClientKey, n: int): seq<Nibble>
  {
    DecryptAll(key, EncryptAll(key, LowDigits(n, TIMESTAMP_DIGITS)))
  }

  /** The server reads back exactly the client's integer, already 16 digits
      long, so its normalisation changes nothing. */
  lemma SeenDigitsValue(key: ClientKey, n: int)
    requires Sound(key) && 0 <= n < TWO_POW_64
    ensures SeenDigits(key, n) == LowDigits(n, TIMESTAMP_DIGITS)
    ensures FixLen(SeenDigits(key, n), TIMESTAMP_DIGITS) == SeenDigits(key, n)
    ensures TsValue(SeenDigits(key, n)) == n
  {
    DecryptAllEncryptAll(key, LowDigits(n, TIMESTAMP_DIGITS));
    U64DigitsValue(n);
  }

  /** The encrypted comparison orders client timestamps as the integers they
      are: the server's "greater" bit on two encoded timestamps is set exactly
      when the first timestamp is the later one. */
  lemma ComparisonMatchesClientOrder(key: ClientKey, t1: int, t2: int)
    requires Sound(key)
    requires 0 <= t1 < TWO_POW_64 && 0 <= t2 < TWO_POW_64
    ensures Value(SeenDigits(key, t1)) > Value(SeenDigits(key, t2)) <==> t1 > t2
  {
    SeenDigitsValue(key, t1);
    SeenDigitsValue(key, t2);
  }

  /** One client edit as the server's selection sees it: a timestamp and a
      content id, both below 2^64. */
  datatype Edit = Edit(ts: int, id: int)

  predicate InRange(edits: seq<Edit>)
  {
    forall i :: 0 <= i < |edits| ==> 0 <= edits[i].ts < TWO_POW_64 && 0 <= edits[i].id < TWO_POW_64
  }

  function Stamps(key: ClientKey, edits: seq<Edit>): (us: seq<Stamp>)
    ensures |us| == |edits|
  {
    seq(|edits|, i requires 0 <= i < |edits| => Stamp(SeenDigits(key, edits[i].ts), SeenDigits(key, edits[i].id)))
  }

  /** Each stamp reads back as its edit. */
  lemma StampAt(key: ClientKey, edits: seq<Edit>, j: nat)
    requires Sound(key) && InRange(edits) && j < |edits|
    ensures TsValue(Stamps(key, edits)[j].ts) == edits[j].ts
    ensures Value(FixLen(Stamps(key, edits)[j].id, TIMESTAMP_DIGITS)) == edits[j].id
  {
    SeenDigitsValue(key, edits[j].ts);
    SeenDigitsValue(key, edits[j].id);
  }

  /** Last writer wins across clients sharing a key: after the server has
      handled a run of edits to a new document, the stored timestamp decodes to
      the latest edit's timestamp, no edit is later, and the stored id decodes
      to the id of the first edit carrying that timestamp. */
  lemma LatestEditWins(key: ClientKey, docId: string, edits: seq<Edit>)
    requires Sound(key) && |edits| > 0 && InRange(edits)
    ensures Replay(None, docId, Stamps(key, edits)).Some?
    ensures var r := Replay(None, docId, Stamps(key, edits)).value;
      && (forall j :: 0 <= j < |edits| ==> edits[j].ts <= Value(r.selectedTs))
      && exists i :: 0 <= i < |edits| && edits[i].ts == Value(r.selectedTs)
           && (forall j :: 0 <= j < i ==> edits[j].ts < edits[i].ts)
           && Value(r.selectedId) == edits[i].id
  {
    var us := Stamps(key, edits);
    ReplayFromNothing(docId, us);
    var r := Replay(None, docId, us).value;
    var m := MaxTs(us);
    assert Value(r.selectedTs) == m;
    var _ := MaxTsFirst(us);
    var i :| 0 <= i < |us| && TsValue(us[i].ts) == m
      && (forall j :: 0 <= j < i ==> TsValue(us[j].ts) < m)
      && r.selectedId == FixLen(us[i].id, TIMESTAMP_DIGITS);
    StampAt(key, edits, i);
    forall j | 0 <= j < |edits|
      ensures edits[j].ts <= m
      ensures j < i ==> edits[j].ts < m
    {
      StampAt(key, edits, j);
    }
    assert edits[i].ts == m && Value(r.selectedId) == edits[i].id;
  }

  /** Content a client encrypted, stored by the server (cut or padded to 128
      entries) and fetched and decrypted by a client with the same key, is
      the sender's text cut to 62 bytes. */
  lemma StoredContentReadsBack(key: ClientKey, text: Text)
    requires Sound(key)
    ensures ContentOf(PadTo(DecryptAll(key, EncryptAll(key, ContentNibbles(text))), CONTENT_NIBBLES)) == Truncated(text)
  {
    DecryptAllEncryptAll(key, ContentNibbles(text));
    ContentNibblesLayout(text);
    ContentRoundTripNibbles(text);
    assert PadTo(ContentNibbles(text), CONTENT_NIBBLES) == ContentNibbles(text);
  }
}
