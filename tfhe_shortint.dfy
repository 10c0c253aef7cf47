/** The client-side ciphertext codec: 64-bit integers become 16 digit
    ciphertexts, text becomes 128 nibble ciphertexts, and back; plus the
    monotonic clock that stamps every edit.

    The TFHE primitives are abstracted into a `ClientKey` that encrypts (and
    serializes to base64) one nibble at a time and decrypts one ciphertext;
    everything else here is the integer and byte arithmetic of the encoding. */
module TfheShortint {
  import opened FheTypes
  import opened Digits

  /** A client key as the codec uses it: encrypt-serialize-base64 of a single
      nibble, and base64-deserialize-decrypt of a single ciphertext. */
  datatype ClientKey = ClientKey(encrypt: Nibble -> Base64, decrypt: Base64 -> nat)

  /** Decryption under the key recovers every encrypted nibble. */
  ghost predicate Sound(key: ClientKey)
  {
    forall d: Nibble :: key.decrypt(key.encrypt(d)) == d
  }

  /** Encrypt each plaintext nibble on its own, in order. */
  function EncryptAll(key: ClientKey, ds: seq<Nibble>): (cts: seq<Base64>)
    ensures |cts| == |ds|
  {
    seq(|ds|, i requires 0 <= i < |ds| => key.encrypt(ds[i]))
  }

  /** Decrypt each ciphertext on its own, keeping the low nibble (`m & 0xf`). */
  function DecryptAll(key: ClientKey, cts: seq<Base64>): (ds: seq<Nibble>)
    ensures |ds| == |cts|
  {
    seq(|cts|, i requires 0 <= i < |cts| => key.decrypt(cts[i]) % 16)
  }

  lemma DecryptAllEncryptAll(key: ClientKey, ds: seq<Nibble>)
    requires Sound(key)
    ensures DecryptAll(key, EncryptAll(key, ds)) == ds
  {
  }

  lemma DecryptAllSnoc(key: ClientKey, cts: seq<Base64>, i: nat)
    requires i < |cts|
    ensures DecryptAll(key, cts[..i + 1]) == DecryptAll(key, cts[..i]) + [key.decrypt(cts[i]) % 16]
  {
  }

  // ---------------------------------------------------------------------------
  // Integers as 16 digit ciphertexts
  // ---------------------------------------------------------------------------

  /** `encryptU64ToDigitsB64Array`: the 16 low hexadecimal digits of `n`, most
      significant first, each encrypted. `n` is any integer, as a BigInt is:
      `x & 0xf` and `x >>= 4` on a negative BigInt are `x % 16` and `x / 16`. */
  method EncryptU64ToDigits(key: ClientKey, n: int) returns (cts: seq<Base64>)
    ensures cts == EncryptAll(key, LowDigits(n, TIMESTAMP_DIGITS))
  {
    var x := n;
    var digits := new Nibble[TIMESTAMP_DIGITS];
    var i: int := TIMESTAMP_DIGITS - 1;
    while i >= 0
      invariant -1 <= i < TIMESTAMP_DIGITS
      invariant x == Shr(n, TIMESTAMP_DIGITS - 1 - i)
      invariant digits[i + 1..] == LowDigits(n, TIMESTAMP_DIGITS - 1 - i)
    {
      ghost var done := TIMESTAMP_DIGITS - 1 - i;
      LowDigitsCons(n, done);
      ShrShr(n, done);
      digits[i] := x % 16;
      assert digits[i..] == [digits[i]] + digits[i + 1..];
      x := x / 16;
      i := i - 1;
    }
    cts := EncryptAll(key, digits[..]);
  }

  /** `decryptDigitsB64ArrayToU64`: fold `acc = (acc << 4) | (m & 0xf)` over every
      given entry. The low four bits of `acc << 4` are zero, so the `|` is `+`. */
  method DecryptDigitsToU64(key: ClientKey, digitsB64: seq<Base64>) returns (acc: int)
    ensures acc == Value(DecryptAll(key, digitsB64))
  {
    acc := 0;
    var i := 0;
    while i < |digitsB64|
      invariant 0 <= i <= |digitsB64|
      invariant acc == Value(DecryptAll(key, digitsB64[..i]))
    {
      var m := key.decrypt(digitsB64[i]);
      DecryptAllSnoc(key, digitsB64, i);
      assert DecryptAll(key, digitsB64[..i + 1])[..i] == DecryptAll(key, digitsB64[..i]);
      acc := acc * 16 + m % 16;
      i := i + 1;
    }
    assert digitsB64[..i] == digitsB64;
  }

  /** The encoding has exactly 16 entries and entry `i` holds
      `(n >> 4 * (15 - i)) & 0xf`. */
  lemma U64DigitsAt(n: int, i: nat)
    requires i < TIMESTAMP_DIGITS
    ensures |LowDigits(n, TIMESTAMP_DIGITS)| == TIMESTAMP_DIGITS
    ensures LowDigits(n, TIMESTAMP_DIGITS)[i] == Shr(n, TIMESTAMP_DIGITS - 1 - i) % 16
  {
    LowDigitsAt(n, TIMESTAMP_DIGITS, i);
  }

  lemma Pow16Of16()
    ensures Pow16(TIMESTAMP_DIGITS) == TWO_POW_64
  {
    assert Pow16(4) == 0x1_0000;
    assert Pow16(8) == 0x1_0000_0000;
    assert Pow16(12) == 0x1_0000_0000_0000;
  }

  /** The 16 digits read back give `n` modulo 2^64, so every u64 comes back
      unchanged. */
  lemma U64DigitsValue(n: int)
    ensures Value(LowDigits(n, TIMESTAMP_DIGITS)) == n % TWO_POW_64
    ensures 0 <= n < TWO_POW_64 ==> Value(LowDigits(n, TIMESTAMP_DIGITS)) == n
  {
    var v, s := Value(LowDigits(n, TIMESTAMP_DIGITS)), Shr(n, TIMESTAMP_DIGITS);
    LowDigitsValue(n, TIMESTAMP_DIGITS);
    ValueBounds(LowDigits(n, TIMESTAMP_DIGITS));
    Pow16Of16();
    assert v + TWO_POW_64 * s == n && 0 <= v < TWO_POW_64;
    ModOfSplit(n, v, s, TWO_POW_64);
    if 0 <= n < TWO_POW_64 {
      ShrOfSmall(n, TIMESTAMP_DIGITS);
    }
  }

  /** Euclidean remainder is the unique low part of a split. */
  lemma ModOfSplit(n: int, v: int, s: int, m: int)
    requires m > 0 && 0 <= v < m && v + m * s == n
    ensures n % m == v
  {
    var q, r := n / m, n % m;
    var d := s - q;
    assert m * d == r - v by {
      assert m * q + r == n;
      assert m * d == m * s - m * q;
    }
    if d >= 1 {
      MulAtLeast(m, d);
    } else if d <= -1 {
      MulAtLeast(m, -d);
    }
  }

  lemma MulAtLeast(m: int, d: int)
    requires m > 0 && d >= 1
    ensures m * d >= m
  {
    assert m * d == m + m * (d - 1);
  }

  /** Decrypting the 16 ciphertexts of `n` with the same key gives `n` back,
      for every `0 <= n < 2^64`. */
  lemma U64RoundTrip(key: ClientKey, n: int)
    requires Sound(key)
    requires 0 <= n < TWO_POW_64
    ensures Value(DecryptAll(key, EncryptAll(key, LowDigits(n, TIMESTAMP_DIGITS)))) == n
  {
    DecryptAllEncryptAll(key, LowDigits(n, TIMESTAMP_DIGITS));
    U64DigitsValue(n);
  }

  /** Whatever 16 ciphertexts are given, the decoded integer fits in 64 bits. */
  lemma DecodedU64Bounded(key: ClientKey, cts: seq<Base64>)
    requires |cts| == TIMESTAMP_DIGITS
    ensures 0 <= Value(DecryptAll(key, cts)) < TWO_POW_64
  {
    ValueBounds(DecryptAll(key, cts));
    Pow16Of16();
  }

  /** The decoder does not stop after 16 entries: entries in front of the last
      ones shift into the high part of the result. */
  lemma DecodeConsumesEveryEntry(key: ClientKey, front: seq<Base64>, back: seq<Base64>)
    ensures Value(DecryptAll(key, front + back))
         == Value(DecryptAll(key, front)) * Pow16(|back|) + Value(DecryptAll(key, back))
  {
    var all, f, b := DecryptAll(key, front + back), DecryptAll(key, front), DecryptAll(key, back);
    assert all == f + b by {
      forall i | 0 <= i < |all|
        ensures all[i] == (f + b)[i]
      {
        if i < |front| {
          assert (front + back)[i] == front[i];
        } else {
          assert (front + back)[i] == back[i - |front|];
        }
      }
    }
    ValueAppend(DecryptAll(key, front), DecryptAll(key, back));
  }

  // ---------------------------------------------------------------------------
  // Text as 128 nibble ciphertexts
  // ---------------------------------------------------------------------------

  /** Largest body that fits the envelope: the capacity minus the 2-byte header. */
  const CONTENT_BODY_MAX: nat := CONTENT_NIBBLES / 2 - 2

  /** The UTF-8 bytes, silently cut to the body capacity. */
  function Truncated(text: Text): (t: Text)
    ensures |t| <= CONTENT_BODY_MAX
    ensures |text| <= CONTENT_BODY_MAX ==> t == text
    ensures |text| > CONTENT_BODY_MAX ==> t == text[..CONTENT_BODY_MAX]
  {
    if |text| > CONTENT_BODY_MAX then text[..CONTENT_BODY_MAX] else text
  }

  /** `[lenHi, lenLo, ...body]`: the length, big-endian, in front of the body. */
  function Envelope(body: Text): Text
  {
    [(|body| / 256) % 256, |body| % 256] + body
  }

  /** Every byte becomes two nibbles, high nibble first. */
  function Nibblize(buf: seq<Byte>): (ns: seq<Nibble>)
    ensures |ns| == 2 * |buf|
  {
    seq(2 * |buf|, i requires 0 <= i < 2 * |buf| =>
      if i % 2 == 0 then buf[i / 2] / 16 else buf[i / 2] % 16)
  }

  /** The plaintext nibbles that `encryptContentToNibbleArrayB64` encrypts. */
  function ContentNibbles(text: Text): seq<Nibble>
  {
    PadTo(Nibblize(Envelope(Truncated(text))), CONTENT_NIBBLES)
  }

  lemma NibblizeSnoc(buf: seq<Byte>, b: Byte)
    ensures Nibblize(buf + [b]) == Nibblize(buf) + [b / 16, b % 16]
  {
    var lhs := Nibblize(buf + [b]);
    var rhs := Nibblize(buf) + [b / 16, b % 16];
    assert |lhs| == |rhs|;
    forall i | 0 <= i < |lhs|
      ensures lhs[i] == rhs[i]
    {
      if i < 2 * |buf| {
        assert i / 2 < |buf|;
      }
    }
  }

  /** The envelope buffer: the body cut to 62 bytes, after its 2-byte
      big-endian length. */
  method EnvelopeBuffer(text: Text) returns (buf: array<Byte>)
    ensures fresh(buf)
    ensures buf[..] == Envelope(Truncated(text))
  {
    var bytes := text;
    if |bytes| > CONTENT_NIBBLES / 2 - 2 {
      bytes := bytes[..CONTENT_NIBBLES / 2 - 2];
    }
    var len := |bytes|;
    buf := new Byte[2 + len];
    buf[0] := (len / 256) % 256;
    buf[1] := len % 256;
    forall j | 0 <= j < len {
      buf[2 + j] := bytes[j];
    }
    assert buf[..] == Envelope(bytes);
  }

  /** Each byte of the buffer split into its high and low nibble. */
  method NibblizeBuffer(buf: array<Byte>) returns (nibbles: seq<Nibble>)
    ensures nibbles == Nibblize(buf[..])
  {
    nibbles := [];
    var i := 0;
    while i < buf.Length
      invariant 0 <= i <= buf.Length
      invariant nibbles == Nibblize(buf[..i])
    {
      var b := buf[i];
      NibblizeSnoc(buf[..i], b);
      assert buf[..i + 1] == buf[..i] + [b];
      nibbles := nibbles + [b / 16];
      nibbles := nibbles + [b % 16];
      i := i + 1;
    }
    assert buf[..i] == buf[..];
  }

  /** Zero nibbles pushed until there are 128, then the first 128 kept. */
  method PadNibbles(ns: seq<Nibble>) returns (out: seq<Nibble>)
    ensures out == PadTo(ns, CONTENT_NIBBLES)
  {
    var nibbles := ns;
    while |nibbles| < CONTENT_NIBBLES
      invariant |ns| <= |nibbles|
      invariant |ns| <= CONTENT_NIBBLES ==> |nibbles| <= CONTENT_NIBBLES
      invariant |ns| >= CONTENT_NIBBLES ==> nibbles == ns
      invariant nibbles == ns + Zeros(|nibbles| - |ns|)
      decreases CONTENT_NIBBLES - |nibbles|
    {
      assert Zeros(|nibbles| + 1 - |ns|) == Zeros(|nibbles| - |ns|) + [0];
      nibbles := nibbles + [0];
    }
    out := nibbles[..CONTENT_NIBBLES];
  }

  /** `encryptContentToNibbleArrayB64`: truncate, build the envelope, split it
      into nibbles, zero-pad to 128 and encrypt each nibble. */
  method EncryptContent(key: ClientKey, text: Text) returns (out: seq<Base64>)
    ensures out == EncryptAll(key, ContentNibbles(text))
  {
    var buf := EnvelopeBuffer(text);
    var nibbles := NibblizeBuffer(buf);
    var padded := PadNibbles(nibbles);
    out := EncryptAll(key, padded);
  }

  /** Bytes rebuilt from the first `min(len, 128)` nibbles, `(hi << 4) | lo`
      for each whole pair. */
  function BytesOfNibbles(ns: seq<Nibble>): (bytes: seq<Byte>)
    ensures |bytes| == (if |ns| < CONTENT_NIBBLES then |ns| else CONTENT_NIBBLES) / 2
  {
    var n := if |ns| < CONTENT_NIBBLES then |ns| else CONTENT_NIBBLES;
    seq(n / 2, i requires 0 <= i < n / 2 => (ns[2 * i] as int) * 16 + ns[2 * i + 1])
  }

  /** Read the big-endian length from bytes 0 and 1 (a missing byte reads as 0,
      as an out-of-range typed-array read does under `<<` and `|`) and slice
      `[2, 2 + length)`, clamped to the buffer as `slice` clamps. */
  function OpenEnvelope(buf: seq<Byte>): (body: Text)
    ensures |body| <= |buf|
  {
    var b0: int := if |buf| > 0 then buf[0] else 0;
    var b1: int := if |buf| > 1 then buf[1] else 0;
    var contentLen := b0 * 256 + b1;
    var start := if |buf| < 2 then |buf| else 2;
    var end := if 2 + contentLen < |buf| then 2 + contentLen else |buf|;
    buf[start..end]
  }

  /** The bytes `decryptContentFromNibbleArrayB64` returns for these plaintext
      nibbles (before UTF-8 decoding). */
  function ContentOf(ns: seq<Nibble>): Text
  {
    OpenEnvelope(BytesOfNibbles(ns))
  }

  /** The first `min(len, 128)` ciphertexts decrypted, each masked to 4 bits. */
  method DecryptNibbles(key: ClientKey, cts: seq<Base64>) returns (nibbles: array<Nibble>)
    ensures fresh(nibbles)
    ensures nibbles.Length == if |cts| < CONTENT_NIBBLES then |cts| else CONTENT_NIBBLES
    ensures nibbles[..] == DecryptAll(key, cts)[..nibbles.Length]
  {
    var n := if |cts| < CONTENT_NIBBLES then |cts| else CONTENT_NIBBLES;
    nibbles := new Nibble[n];
    var i := 0;
    while i < n
      invariant 0 <= i <= n
      invariant nibbles[..i] == DecryptAll(key, cts)[..i]
    {
      nibbles[i] := key.decrypt(cts[i]) % 16;
      assert nibbles[..i + 1] == nibbles[..i] + [nibbles[i]];
      i := i + 1;
    }
    assert nibbles[..i] == nibbles[..];
  }

  /** Each whole pair of nibbles rebuilt into a byte, `(hi << 4) | lo`. */
  method PackBytes(nibbles: array<Nibble>) returns (buf: array<Byte>)
    requires nibbles.Length <= CONTENT_NIBBLES
    ensures fresh(buf)
    ensures buf[..] == BytesOfNibbles(nibbles[..])
  {
    var byteLen := nibbles.Length / 2;
    buf := new Byte[byteLen];
    var i := 0;
    while i < byteLen
      invariant 0 <= i <= byteLen
      invariant forall j :: 0 <= j < i ==> buf[j] == (nibbles[2 * j] as int) * 16 + nibbles[2 * j + 1]
    {
      var hi: int := nibbles[i * 2];
      var lo: int := nibbles[i * 2 + 1];
      buf[i] := hi * 16 + lo;
      i := i + 1;
    }
    assert buf[..] == BytesOfNibbles(nibbles[..]);
  }

  /** Only the first 128 nibbles matter to `BytesOfNibbles`. */
  lemma BytesOfNibblesPrefix(ns: seq<Nibble>, n: nat)
    requires n == if |ns| < CONTENT_NIBBLES then |ns| else CONTENT_NIBBLES
    ensures BytesOfNibbles(ns[..n]) == BytesOfNibbles(ns)
  {
  }

  /** `decryptContentFromNibbleArrayB64`, up to the UTF-8 decoding. */
  method DecryptContent(key: ClientKey, cts: seq<Base64>) returns (text: Text)
    ensures text == ContentOf(DecryptAll(key, cts))
  {
    var nibbles := DecryptNibbles(key, cts);
    var buf := PackBytes(nibbles);
    BytesOfNibblesPrefix(DecryptAll(key, cts), nibbles.Length);
    // length header and body slice
    text := OpenEnvelope(buf[..]);
  }

  /** Layout of the 128 plaintext nibbles: a big-endian length header of at
      most 62, each body byte as high nibble then low nibble, zeros after. */
  lemma ContentNibblesLayout(text: Text)
    ensures |ContentNibbles(text)| == CONTENT_NIBBLES
    ensures var L := |Truncated(text)|;
      && L == (if |text| > CONTENT_BODY_MAX then CONTENT_BODY_MAX else |text|)
      && ContentNibbles(text)[..4] == [0, 0, L / 16, L % 16]
      && (forall j :: 0 <= j < L ==>
            ContentNibbles(text)[4 + 2 * j] == text[j] / 16
            && ContentNibbles(text)[5 + 2 * j] == text[j] % 16)
      && (forall i :: 4 + 2 * L <= i < CONTENT_NIBBLES ==> ContentNibbles(text)[i] == 0)
  {
    var L := |Truncated(text)|;
    var ns := ContentNibbles(text);
    HeaderNibbles(text);
    forall j | 0 <= j < L
      ensures ns[4 + 2 * j] == text[j] / 16 && ns[5 + 2 * j] == text[j] % 16
    {
      BodyNibbles(text, j);
    }
  }

  /** The envelope's nibbles come first, zeros after them. */
  lemma EnvelopeNibblesFirst(text: Text)
    ensures var nib := Nibblize(Envelope(Truncated(text)));
      && |nib| == 4 + 2 * |Truncated(text)| <= CONTENT_NIBBLES
      && ContentNibbles(text)[..|nib|] == nib
      && forall i :: |nib| <= i < CONTENT_NIBBLES ==> ContentNibbles(text)[i] == 0
  {
    var nib := Nibblize(Envelope(Truncated(text)));
    var ns := ContentNibbles(text);
    forall i | |nib| <= i < CONTENT_NIBBLES
      ensures ns[i] == 0
    {
      assert ns[i] == ns[|nib|..][i - |nib|];
    }
  }

  /** The first four nibbles hold the body length, big-endian. */
  lemma HeaderNibbles(text: Text)
    ensures var L := |Truncated(text)|;
      ContentNibbles(text)[..4] == [0, 0, L / 16, L % 16]
  {
    var L := |Truncated(text)|;
    var env := Envelope(Truncated(text));
    var nib := Nibblize(env);
    EnvelopeNibblesFirst(text);
    var ns := ContentNibbles(text);
    assert ns[..4] == nib[..4];
    assert nib[0] == env[0] / 16 && nib[1] == env[0] % 16;
    assert nib[2] == env[1] / 16 && nib[3] == env[1] % 16;
  }

  /** Body byte `j` sits at nibbles `4 + 2j` and `5 + 2j`, high nibble first. */
  lemma BodyNibbles(text: Text, j: nat)
    requires j < |Truncated(text)|
    ensures ContentNibbles(text)[4 + 2 * j] == text[j] / 16
    ensures ContentNibbles(text)[5 + 2 * j] == text[j] % 16
  {
    var env := Envelope(Truncated(text));
    var nib := Nibblize(env);
    EnvelopeNibblesFirst(text);
    var ns := ContentNibbles(text);
    assert ns[4 + 2 * j] == nib[4 + 2 * j] && ns[5 + 2 * j] == nib[5 + 2 * j];
    assert (4 + 2 * j) / 2 == 2 + j && (5 + 2 * j) / 2 == 2 + j;
    assert env[2 + j] == Truncated(text)[j] == text[j];
  }

  /** The empty string encodes to 128 zero nibbles: a zero length and a zero body. */
  lemma EmptyContentIsZeros()
    ensures ContentNibbles([]) == Zeros(CONTENT_NIBBLES)
  {
    ContentNibblesLayout([]);
  }

  /** Pairs of nibbles produced by `Nibblize` reassemble into the original bytes. */
  lemma BytesOfNibblized(env: seq<Byte>, ns: seq<Nibble>)
    requires |env| <= MAX_CONTENT_LEN && |ns| == CONTENT_NIBBLES
    requires ns[..2 * |env|] == Nibblize(env)
    ensures |BytesOfNibbles(ns)| == MAX_CONTENT_LEN
    ensures forall i :: 0 <= i < |env| ==> BytesOfNibbles(ns)[i] == env[i]
  {
    var bytes := BytesOfNibbles(ns);
    forall i | 0 <= i < |env|
      ensures bytes[i] == env[i]
    {
      assert ns[2 * i] == Nibblize(env)[2 * i] == env[i] / 16;
      assert ns[2 * i + 1] == Nibblize(env)[2 * i + 1] == env[i] % 16;
    }
  }

  /** Rebuilding bytes from the content nibbles gives the envelope back first. */
  lemma EnvelopeBytesBack(text: Text)
    ensures var env := Envelope(Truncated(text));
      && |BytesOfNibbles(ContentNibbles(text))| == MAX_CONTENT_LEN
      && |env| <= MAX_CONTENT_LEN
      && BytesOfNibbles(ContentNibbles(text))[..|env|] == env
  {
    var env := Envelope(Truncated(text));
    var ns := ContentNibbles(text);
    EnvelopeNibblesFirst(text);
    BytesOfNibblized(env, ns);
  }

  /** A buffer that starts with the envelope of `body` opens to `body`. */
  lemma OpenEnvelopeOf(bytes: seq<Byte>, body: Text)
    requires |body| <= CONTENT_BODY_MAX && 2 + |body| <= |bytes|
    requires bytes[..2 + |body|] == Envelope(body)
    ensures OpenEnvelope(bytes) == body
  {
    var env := Envelope(body);
    assert bytes[0] == env[0] == 0 && bytes[1] == env[1] == |body|;
    assert bytes[2..2 + |body|] == env[2..] == body;
  }

  lemma ContentRoundTripNibbles(text: Text)
    ensures ContentOf(ContentNibbles(text)) == Truncated(text)
  {
    EnvelopeBytesBack(text);
    OpenEnvelopeOf(BytesOfNibbles(ContentNibbles(text)), Truncated(text));
  }

  /** Byte-level round trip: any body of at most 62 bytes comes back unchanged;
      a longer one comes back as its first 62 bytes. */
  lemma ContentRoundTrip(key: ClientKey, text: Text)
    requires Sound(key)
    ensures ContentOf(DecryptAll(key, EncryptAll(key, ContentNibbles(text)))) == Truncated(text)
    ensures |text| <= CONTENT_BODY_MAX ==>
      ContentOf(DecryptAll(key, EncryptAll(key, ContentNibbles(text)))) == text
  {
    DecryptAllEncryptAll(key, ContentNibbles(text));
    ContentRoundTripNibbles(text);
  }

  /** Whatever arrives, the decoded body never exceeds the body capacity. */
  lemma DecodedContentBounded(ns: seq<Nibble>)
    ensures |ContentOf(ns)| <= CONTENT_BODY_MAX
  {
  }

  // ---------------------------------------------------------------------------
  // Monotonic clock
  // ---------------------------------------------------------------------------

  /** The module-level `lastTs` behind `nextMonotonicTs`. */
  class MonotonicClock {
    var lastTs: int

    constructor ()
      ensures lastTs == 0
    {
      lastTs := 0;
    }

    /** `nextMonotonicTs`, with the wall-clock reading `now` as input: the
        smallest value that is at least `now` and after every earlier result. */
    method Next(now: int) returns (ts: int)
      modifies this
      ensures ts == lastTs
      ensures ts > old(lastTs) && ts >= now
      ensures ts == now || ts == old(lastTs) + 1
    {
      lastTs := if now > lastTs then now else lastTs + 1;
      ts := lastTs;
    }
  }
}
