/** Shared vocabulary of the encrypted sync protocol: the plaintext units that get
    encrypted one by one, the fixed array widths of the wire format, and the
    wire messages themselves. */
module FheTypes {

  /** A 4-bit plaintext, the message space of one shortint ciphertext. */
  type Nibble = x: int | 0 <= x < 16

  /** One byte of UTF-8 text or of the content envelope. */
  type Byte = x: int | 0 <= x < 256

  /** Text is handled as its UTF-8 bytes. */
  type Text = seq<Byte>

  /** A serialized ciphertext, base64-encoded. */
  type Base64 = string

  /** Number of digit ciphertexts in an encrypted 64-bit integer. */
  const TIMESTAMP_DIGITS: nat := 16
  /** Capacity of the content envelope in bytes (2-byte header included). */
  const MAX_CONTENT_LEN: nat := 64
  /** Number of nibble ciphertexts in an encrypted content body. */
  const CONTENT_NIBBLES: nat := MAX_CONTENT_LEN * 2

  const TWO_POW_64: int := 0x1_0000_0000_0000_0000

  /** Client to server: one edit, everything but the content id encrypted. */
  datatype WsClientUpdate = WsClientUpdate(
    docId: string,
    tsCts: seq<Base64>,
    idCts: seq<Base64>,
    contentId: string,
    contentCts: seq<Base64>)

  /** Server to client: the encrypted id of the version the server selected. */
  datatype WsServerSelected = WsServerSelected(docId: string, selectedIdCts: seq<Base64>)

  /** The outcome of an HTTP request: the request failed outright, or a
      response arrived with its status and its body parsed as JSON (`None`
      when the body does not parse). */
  datatype HttpResponse<+T> =
    | NetworkFailure
    | Response(ok: bool, status: int, json: Option<T>)

  datatype Option<+T> = None | Some(value: T)

  datatype Result<+T, +E> = Ok(value: T) | Err(error: E)
}
