/**
 * `TokenStore.Token` and what the token-store decorators need from their
 * surroundings: the store they wrap, seen through its `read`, and the
 * UTF-8 conversions of `String.getBytes` and `new String(bytes, UTF_8)`.
 */
module TokenStore {
  import opened Common

  /** `TokenStore.Token`: an expiry instant (in seconds), a user name and string attributes. */
  datatype Token = Token(expiry: int, username: string, attributes: map<string, string>)

  /** The `read` of the wrapped store: the token it holds under an id, if any. */
  type Reader = string -> Option<Token>

  /** `s.getBytes(UTF_8)` and `new String(bytes, UTF_8)`. */
  datatype Utf8 = Utf8(encode: string -> seq<byte>, decode: seq<byte> -> string)
}
