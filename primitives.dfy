/** The library calls the signer makes and whose code is not part of this model:
    HMAC-SHA256 (RFC 2104 over FIPS 180-4 SHA-256), its hex and base64 encodings,
    SHA-256 as hex, and the SDK's query-string parser and serialiser. They are
    parameters: every property proved here holds whatever these functions are. */
module Primitives {

  newtype byte = x: int | 0 <= x < 256

  type Bytes = seq<byte>

  /** An HMAC key: the source passes either a string or a buffer returned by an earlier HMAC. */
  datatype HmacKey = TextKey(text: string) | ByteKey(bytes: Bytes)

  /** The result of the SDK's `queryStringParse`: each name with its values. */
  type QueryParams = map<string, seq<string>>

  datatype Library = Library(
    hmac: (HmacKey, string) -> Bytes,
    hex: Bytes -> string,
    base64: Bytes -> string,
    sha256Hex: string -> string,
    queryStringParse: string -> QueryParams,
    queryParamsToString: QueryParams -> string)
}
