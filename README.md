# Natter API security core in Dafny

Natter is the example social-space API of *API Security in Action*. This
project models its security-relevant core and proves properties about the
model:

- **The DTLS session drivers.** `DtlsDatagramChannel`,
  `DtlsDatagramSocket` and the earlier `DTLSDatagramSocket` each drive a
  `javax.net.ssl.SSLEngine` handshake over UDP.
  - They are modelled as classes that hold an engine, datagram transports
    and `ByteBuffer`s, with their `while` loops and invariants.
  - The engine is a scripted oracle: each engine an `SSLContext` creates
    follows a fixed script of wrap/unwrap answers and delegated tasks.
  - The network is a queue of incoming datagrams plus a log of sent ones.
- **The byte-level encoders.**
  - The record and handshake headers of section 4.1 and section 4.2.2 of
    RFC 6347, as `DtlsPacketDebug` reads them.
  - The OSCORE nonce and key-derivation info of section 5.2 and
    section 3.2.1 of RFC 8613 (`Oscore`).
  - HKDF-Expand of section 2.3 of RFC 5869 (`HKDF`).
  - Unpadded base64url of section 5 of RFC 4648 (`Base64url`).
- **The token formats and authorization decisions.**
  - The token-store decorators: HMAC tag, JWT-style header,
    IV.ciphertext, and the cookie session hash.
  - The signed JWT access-token reader.
  - The CSRF and CORS filters; Basic authentication and the permission
    filters; the token login and scope filters.
  - The OAuth2 scope checks and the authorization server's client
    authentication and scope intersection.
  - Capability URIs, ABAC deny-overrides and ID-token claim checks.
  - The `getCookie` parser of `natter.js`.

Cryptography and library parsers are parameters of the model:

- HMAC-SHA256, SHA-256, the AES-CTR key stream and scrypt;
- JOSE parsing and verification, JSON and CBOR encoding;
- UTF-8 conversion and `decodeURIComponent`.

The clock is an integer parameter. The model's Java `byte` is `0..255`,
and signed Java values that matter (the `long` sequence number of
`Oscore.nonce`) are reduced explicitly.

Where the source and its description differ, the model follows the source:

- `DTLSDatagramSocket.receive` never checks that the engine is
  `NOT_HANDSHAKING`; only `send` does.
- Every datagram that `DTLSDatagramSocket`'s handshake sends goes to
  localhost:54321 only until its first receive. The receive readdresses the
  reused packet to the sender, and later sends go to that sender.
  `DtlsLegacySocket.DTLSDatagramSocket.Handshake` proves that every
  datagram it sends goes to localhost:54321 or to a sender of an earlier
  datagram.
- `DtlsDatagramSocket`'s `NEED_UNWRAP` case decodes the record header
  (`DtlsPacketDebug.debug`) before the buffer is flipped. It therefore
  reads the bytes after the received datagram, and fewer than 13 of them
  throw `BufferUnderflowException`. The model keeps this behaviour.
- In `DtlsDatagramChannel`'s `NEED_WRAP` case, an empty wrap output leaves
  the send buffer flipped and empty. The model keeps this too.
- A `DatagramSocket` receive is cut to the packet's current length. After
  a handshake send, the reused packet's length is that of the record just
  sent.

## Model

| member | source | states |
|---|---|---|
| ByteXor.XorBytes | natter-api/src/main/java/com/manning/apisecurityinaction/Oscore.java:60-64 | bytewise XOR keeps the length of its first operand |
| ByteXor.XorByteTwice | natter-api/src/main/java/com/manning/apisecurityinaction/Oscore.java:62 | XOR with the same byte twice restores the byte |
| ByteXor.XorBytesTwice | natter-api/src/main/java/com/manning/apisecurityinaction/Oscore.java:60-64 | XOR with the same mask twice restores the bytes |
| ByteXor.XorBytesInjective | natter-api/src/main/java/com/manning/apisecurityinaction/token/UnauthenticatedEncryptionStore.java:45-55 | for a fixed mask, distinct inputs give distinct outputs |
| ByteXor.XorBytesSwap | natter-api/src/main/java/com/manning/apisecurityinaction/token/UnauthenticatedEncryptionStore.java:57-71 | two masks may be applied in either order |
| BigEndian.ToBytes | natter-api/src/main/java/com/manning/apisecurityinaction/Oscore.java:55-56 | the `n` low-order bytes of a value, most significant first, have length `n` |
| BigEndian.FromBytes | natter-api/src/main/java/com/manning/apisecurityinaction/DtlsPacketDebug.java:105-108 | an unsigned network-order value of `k` bytes is below 256^k |
| BigEndian.FromToBytes | natter-api/src/main/java/com/manning/apisecurityinaction/Oscore.java:55-56 | reading back the bytes of a value below 256^n gives the value |
| BigEndian.ToFromBytes | natter-api/src/main/java/com/manning/apisecurityinaction/DtlsPacketDebug.java:105-108 | writing back a value read from bytes gives the bytes |
| BigEndian.ToBytesInjective | natter-api/src/main/java/com/manning/apisecurityinaction/Oscore.java:55-56 | distinct values below 256^n have distinct byte strings |
| BigEndian.FromBytesPrepend | natter-api/src/main/java/com/manning/apisecurityinaction/DtlsPacketDebug.java:118-119 | a leading byte weighs 256 to the power of the bytes after it |
| Base64url.Value | natter-api/src/main/java/com/manning/apisecurityinaction/token/Base64url.java:8-9 | a decoded digit is below 64 and encodes back to the same character |
| Base64url.ValueOfDigit | natter-api/src/main/java/com/manning/apisecurityinaction/token/Base64url.java:6-9 | the alphabet is inverted by the decoder on every 6-bit value |
| Base64url.Encode | natter-api/src/main/java/com/manning/apisecurityinaction/token/Base64url.java:11-13 | unpadded length 4⌊n/3⌋ + (0, 2, 3), and every character is in the alphabet |
| Base64url.EncodeUrl | natter-api/src/main/java/com/manning/apisecurityinaction/token/Base64url.java:6-7 | URL-safe output contains neither `.` nor `=` |
| Base64url.OneByteRoundTrip | natter-api/src/main/java/com/manning/apisecurityinaction/token/Base64url.java:11-17 | a single trailing byte (two digits) decodes back |
| Base64url.TwoBytesRoundTrip | natter-api/src/main/java/com/manning/apisecurityinaction/token/Base64url.java:11-17 | two trailing bytes (three digits) decode back |
| Base64url.DigitsRoundTrip | natter-api/src/main/java/com/manning/apisecurityinaction/token/Base64url.java:11-17 | the digit decoder inverts the encoder on every byte string |
| Base64url.UnpaddedRoundTrip | natter-api/src/main/java/com/manning/apisecurityinaction/token/Base64url.java:11-17 | decode(encode(b)) == b in either alphabet |
| Base64url.RoundTrip | natter-api/src/main/java/com/manning/apisecurityinaction/token/Base64url.java:11-17 | URL-safe decode(encode(b)) == b |
| Base64url.DanglingDigitRefused | natter-api/src/main/java/com/manning/apisecurityinaction/token/Base64url.java:15-17 | a length of 1 mod 4 is refused by the decoder |
| Base64url.DanglingDigits | natter-api/src/main/java/com/manning/apisecurityinaction/token/Base64url.java:15-17 | a digit string of length 1 mod 4 does not decode |
| Hkdf.Okm | natter-api/src/main/java/com/manning/apisecurityinaction/HKDF.java:19-28 | the output key material has exactly the requested length |
| Hkdf.StreamLength | natter-api/src/main/java/com/manning/apisecurityinaction/HKDF.java:22-25 | k blocks of 32-byte tags are 32·k bytes long |
| Hkdf.StreamPrefix | natter-api/src/main/java/com/manning/apisecurityinaction/HKDF.java:26-27 | a partial block extends the previous blocks by a prefix of T(k) |
| Hkdf.StreamAt | natter-api/src/main/java/com/manning/apisecurityinaction/HKDF.java:22-27 | byte p of T(1)‖T(2)‖… is byte p mod 32 of T(p/32 + 1) |
| Hkdf.OkmAt | natter-api/src/main/java/com/manning/apisecurityinaction/HKDF.java:21-27 | output byte p is byte p mod 32 of T(p/32 + 1), with at most 255 blocks |
| Hkdf.OkmPrefix | natter-api/src/main/java/com/manning/apisecurityinaction/HKDF.java:19-28 | shorter output is a prefix of longer output |
| Hkdf.BlocksCount | natter-api/src/main/java/com/manning/apisecurityinaction/HKDF.java:21 | the loop runs ceil(n/32) times, at most 255 below the bound |
| Hkdf.Expand | natter-api/src/main/java/com/manning/apisecurityinaction/HKDF.java:11-31 | `IndexOutOfBoundsException` iff size is outside [0, 255·32); size 0 is the `IllegalArgumentException` of an empty `SecretKeySpec`; an error iff the size is not in (0, 255·32); otherwise the output is the length-n prefix of T(1)‖T(2)‖… with T(k) = HMAC(T(k-1)‖info‖k) |
| Hkdf.NextBlock | natter-api/src/main/java/com/manning/apisecurityinaction/HKDF.java:22-27 | one pass computes T(j+1) and copies min(n-i, 32) bytes of it to offset i |
| Common.Zeros | natter-api/src/main/java/com/manning/apisecurityinaction/Oscore.java:53 | `new byte[n]` holds n zero bytes |
| Common.Store | natter-api/src/main/java/com/manning/apisecurityinaction/HKDF.java:26-27 | `System.arraycopy` replaces exactly the target range |
| Common.ArrayOf | natter-api/src/main/java/com/manning/apisecurityinaction/DtlsDatagramSocket.java:210-211 | a new array holding exactly the given bytes |
| HmacTokenStore.Create | natter-api/src/main/java/com/manning/apisecurityinaction/token/HmacTokenStore.java:30-35 | the token is id + "." + base64url(HMAC(id)), so it is signed as id |
| HmacTokenStore.LastDot | natter-api/src/main/java/com/manning/apisecurityinaction/token/HmacTokenStore.java:49 | the last dot is the one before a dot-free tag |
| HmacTokenStore.AfterLastDot | natter-api/src/main/java/com/manning/apisecurityinaction/token/HmacTokenStore.java:53 | the text after the last dot has no dot |
| HmacTokenStore.Verify | natter-api/src/main/java/com/manning/apisecurityinaction/token/HmacTokenStore.java:47-60 | no dot gives empty |
| HmacTokenStore.VerifyExactly | natter-api/src/main/java/com/manning/apisecurityinaction/token/HmacTokenStore.java:47-60 | verification yields id iff the token is id + "." + a tag decoding to HMAC(id) |
| HmacTokenStore.Read | natter-api/src/main/java/com/manning/apisecurityinaction/token/HmacTokenStore.java:47-63 | errors and empty results as verification gives them; a verified id is looked up in the delegate and nothing else is |
| HmacTokenStore.Revoke | natter-api/src/main/java/com/manning/apisecurityinaction/token/HmacTokenStore.java:65-79 | revokes exactly the id a read would accept, and nothing on a missing dot or tag mismatch |
| HmacTokenStore.ReadCreate | natter-api/src/main/java/com/manning/apisecurityinaction/token/HmacTokenStore.java:30-63 | read(create(id)) is the delegate's token for id, even when id contains dots; revoke(create(id)) revokes id |
| HmacTokenStore.ReadAcceptsOnlySigned | natter-api/src/main/java/com/manning/apisecurityinaction/token/HmacTokenStore.java:55-62 | every token read returns comes from an id the token is signed as |
| HmacTokenStore.WrongTagRejected | natter-api/src/main/java/com/manning/apisecurityinaction/token/HmacTokenStore.java:58-60 | a tag other than HMAC(id) reads and revokes nothing |
| JwtHeaderTokenStore.Create | natter-api/src/main/java/com/manning/apisecurityinaction/token/JwtHeaderTokenStore.java:20-25 | the token is base64url(header) + "." + id |
| JwtHeaderTokenStore.HeaderMatches | natter-api/src/main/java/com/manning/apisecurityinaction/token/JwtHeaderTokenStore.java:39-44 | true iff every configured key has its value in the supplied header; a missing key is a JSON error |
| JwtHeaderTokenStore.ExtraKeysIgnored | natter-api/src/main/java/com/manning/apisecurityinaction/token/JwtHeaderTokenStore.java:39-44 | extra supplied header keys do not change the outcome |
| JwtHeaderTokenStore.CheckHeader | natter-api/src/main/java/com/manning/apisecurityinaction/token/JwtHeaderTokenStore.java:34-44 | an illegal base64url header throws; otherwise the parsed header is matched |
| JwtHeaderTokenStore.Read | natter-api/src/main/java/com/manning/apisecurityinaction/token/JwtHeaderTokenStore.java:27-46 | no dot gives empty; otherwise split at the first dot, and the delegate is read only on a match |
| JwtHeaderTokenStore.Revoke | natter-api/src/main/java/com/manning/apisecurityinaction/token/JwtHeaderTokenStore.java:48-56 | revokes the text after the first dot without checking the header; nothing without a dot |
| JwtHeaderTokenStore.ReadCreate | natter-api/src/main/java/com/manning/apisecurityinaction/token/JwtHeaderTokenStore.java:20-56 | a matching header reads and revokes the original id, dots included |
| JwtHeaderTokenStore.MismatchRejected | natter-api/src/main/java/com/manning/apisecurityinaction/token/JwtHeaderTokenStore.java:39-44 | a header with a differing configured value reads nothing |
| UnauthenticatedEncryptionStore.Encrypt | natter-api/src/main/java/com/manning/apisecurityinaction/token/UnauthenticatedEncryptionStore.java:45-55 | base64url(iv) + "." + base64url(ciphertext); a cipher failure is a `RuntimeException` |
| UnauthenticatedEncryptionStore.DecryptBytes | natter-api/src/main/java/com/manning/apisecurityinaction/token/UnauthenticatedEncryptionStore.java:57-71 | no dot gives empty; an IV or ciphertext (around the first dot) that is not base64url throws; a rejected key or an IV of the wrong length gives empty; otherwise the ciphertext XOR the key stream for that IV |
| UnauthenticatedEncryptionStore.Decrypt | natter-api/src/main/java/com/manning/apisecurityinaction/token/UnauthenticatedEncryptionStore.java:57-71 | the UTF-8 string of the decrypted bytes, with the same failures |
| UnauthenticatedEncryptionStore.Create | natter-api/src/main/java/com/manning/apisecurityinaction/token/UnauthenticatedEncryptionStore.java:30-33 | the token decrypts to the UTF-8 bytes of the id; fails iff the key is refused |
| UnauthenticatedEncryptionStore.EncryptThenDecrypt | natter-api/src/main/java/com/manning/apisecurityinaction/token/UnauthenticatedEncryptionStore.java:45-71 | decrypt(encrypt(iv, data)) == data |
| UnauthenticatedEncryptionStore.Read | natter-api/src/main/java/com/manning/apisecurityinaction/token/UnauthenticatedEncryptionStore.java:36-38 | decrypt then delegate read; a failed decrypt reads nothing |
| UnauthenticatedEncryptionStore.Revoke | natter-api/src/main/java/com/manning/apisecurityinaction/token/UnauthenticatedEncryptionStore.java:41-43 | the delegate revokes only what decrypts |
| UnauthenticatedEncryptionStore.ReadCreate | natter-api/src/main/java/com/manning/apisecurityinaction/token/UnauthenticatedEncryptionStore.java:30-43 | with UTF-8 round-tripping, read(create(id)) and revoke(create(id)) reach id |
| UnauthenticatedEncryptionStore.DecryptToken | natter-api/src/main/java/com/manning/apisecurityinaction/token/UnauthenticatedEncryptionStore.java:58-61 | splitting at the first dot inverts the join of IV and ciphertext |
| UnauthenticatedEncryptionStore.Malleable | natter-api/src/main/java/com/manning/apisecurityinaction/token/UnauthenticatedEncryptionStore.java:45-71 | flipping ciphertext bits flips the same plaintext bits: the format has no integrity |
| CookieTokenStore.SessionState.constructor | natter-api/src/main/java/com/manning/apisecurityinaction/token/CookieTokenStore.java:14 | the request's session, or none |
| CookieTokenStore.SessionState.Read | natter-api/src/main/java/com/manning/apisecurityinaction/token/CookieTokenStore.java:28-48 | no session gives empty; bad base64url throws; the session's token is returned iff the decoded id equals SHA-256(session id) |
| CookieTokenStore.SessionState.Create | natter-api/src/main/java/com/manning/apisecurityinaction/token/CookieTokenStore.java:12-26 | invalidates any existing session, binds the token to the fresh one, returns base64url(SHA-256(id)), and reading it back gives the token |
| CookieTokenStore.SessionState.Revoke | natter-api/src/main/java/com/manning/apisecurityinaction/token/CookieTokenStore.java:50-63 | invalidates the session only when the hash matches; otherwise nothing changes |
| CookieTokenStore.OtherSessionRejected | natter-api/src/main/java/com/manning/apisecurityinaction/token/CookieTokenStore.java:36-41 | a token for another session id reads nothing |
| SignedJwtAccessTokenStore.Create | natter-api/src/main/java/com/manning/apisecurityinaction/token/SignedJwtAccessTokenStore.java:31-34 | always `UnsupportedOperationException` |
| SignedJwtAccessTokenStore.Revoke | natter-api/src/main/java/com/manning/apisecurityinaction/token/SignedJwtAccessTokenStore.java:36-39 | always `UnsupportedOperationException` |
| SignedJwtAccessTokenStore.ScopeAttribute | natter-api/src/main/java/com/manning/apisecurityinaction/token/SignedJwtAccessTokenStore.java:62-69 | a string claim is the scope; a list claim is its items joined by spaces, and a list of non-empty space-free words splits back to itself; a missing claim throws; any other claim gives empty |
| SignedJwtAccessTokenStore.Read | natter-api/src/main/java/com/manning/apisecurityinaction/token/SignedJwtAccessTokenStore.java:42-75 | verification failure, a wrong issuer or a missing audience gives empty; accepted claims without `exp` throw `NullPointerException`; accepted claims with `exp` and a readable scope read as a token of their exp, sub and scope; a token comes only from verified claims |
| SignedJwtAccessTokenStore.ReadAccepts | natter-api/src/main/java/com/manning/apisecurityinaction/token/SignedJwtAccessTokenStore.java:51-74 | a token with the right issuer, audience and an exp reads as its exp and sub, with a string scope as it is and a list scope joined by spaces; a list of plain words survives the trip |
| CsrfFilter.Validate | natter-api/src/main/java/com/manning/apisecurityinaction/CsrfFilter.java:40-45 | true iff the header base64url-decodes to SHA-256(session id); missing header gives false; bad base64url throws |
| CsrfFilter.Handle | natter-api/src/main/java/com/manning/apisecurityinaction/CsrfFilter.java:20-38 | GET, HEAD, OPTIONS and session-less requests pass; others pass iff the token validates, else halt 401 |
| CsrfFilter.CookieTokenAccepted | natter-api/src/main/java/com/manning/apisecurityinaction/CsrfFilter.java:40-45 | the cookie store's token for a session is a valid CSRF token for it |
| CsrfFilter.OtherSessionRefused | natter-api/src/main/java/com/manning/apisecurityinaction/CsrfFilter.java:40-45 | another session's token is refused |
| CorsFilter.OriginHeaders | natter-api/src/main/java/com/manning/apisecurityinaction/CorsFilter.java:19-23 | exactly the allow-origin (echoing the origin) and allow-credentials headers |
| CorsFilter.Handle | natter-api/src/main/java/com/manning/apisecurityinaction/CorsFilter.java:17-40 | the CORS headers are set iff the origin is allowed; a preflight halts 403 unless allowed, otherwise 204 with the allowed headers and methods; others are never halted |
| Web.Lookup | natter-api/src/main/java/com/manning/apisecurityinaction/CorsFilter.java:18 | a header or parameter is present iff its name is in the map |
| Web.Request.constructor | natter-api/src/main/java/com/manning/apisecurityinaction/CsrfFilter.java:20 | a request's method, headers, parameters and attributes |
| Web.Response.constructor | natter-api/src/main/java/com/manning/apisecurityinaction/CorsFilter.java:17 | a response with no headers set |
| UserController.ValidUsernameIsPlain | natter-api/src/main/java/com/manning/apisecurityinaction/controller/UserController.java:18-19 | a valid username has no `:`, `/`, space or dot |
| UserController.RegisterUser | natter-api/src/main/java/com/manning/apisecurityinaction/controller/UserController.java:28-54 | a missing username is a JSON error; an invalid username or a password under 8 characters is rejected; no password stores no hash |
| UserController.GetCredentials | natter-api/src/main/java/com/manning/apisecurityinaction/controller/UserController.java:109-130 | no header or no "Basic " prefix gives null; bad base64 throws; no colon in the decoded text is `invalid auth header`; a user name before the first colon that fails the pattern is `invalid username`; otherwise the user name and the rest as password |
| UserController.BasicRoundTrip | natter-api/src/main/java/com/manning/apisecurityinaction/controller/UserController.java:109-130 | Basic-encoded user:password decodes to (user, password), colons in the password kept |
| UserController.NoColonRefused | natter-api/src/main/java/com/manning/apisecurityinaction/controller/UserController.java:119-122 | credentials without a colon throw |
| UserController.FirstDnsName | natter-api/src/main/java/com/manning/apisecurityinaction/controller/UserController.java:87-93 | the first SAN of type 2, or none |
| UserController.FirstDnsAt | natter-api/src/main/java/com/manning/apisecurityinaction/controller/UserController.java:87-93 | the first DNS SAN at index i is the one chosen |
| UserController.ProcessClientCertificateAuth | natter-api/src/main/java/com/manning/apisecurityinaction/controller/UserController.java:80-97 | the subject is the first DNS SAN; no SANs or no DNS SAN sets nothing |
| UserController.RequireAuthentication | natter-api/src/main/java/com/manning/apisecurityinaction/controller/UserController.java:132-137 | halts 401 with `WWW-Authenticate: Bearer` iff there is no subject |
| UserController.RequirePermission | natter-api/src/main/java/com/manning/apisecurityinaction/controller/UserController.java:161-172 | other methods pass; otherwise pass iff perms is present and contains the permission as a substring, else 403 |
| UserController.SubstringNotLetters | natter-api/src/main/java/com/manning/apisecurityinaction/controller/UserController.java:168 | "rd" is refused against "rwd" while "d" passes |
| UserController.PermittedLettersHeld | natter-api/src/main/java/com/manning/apisecurityinaction/controller/UserController.java:161-172 | a passing permission's letters are all in the request's perms |
| TokenController.LoginToken | natter-api/src/main/java/com/manning/apisecurityinaction/controller/TokenController.java:22-43 | the subject's token expires 10 minutes from now and carries exactly the scope and role parameters present |
| TokenController.ValidateToken | natter-api/src/main/java/com/manning/apisecurityinaction/controller/TokenController.java:45-62 | no header does nothing; a token strictly before its expiry sets subject and copies attributes; otherwise 401 |
| TokenController.RequireScope | natter-api/src/main/java/com/manning/apisecurityinaction/controller/TokenController.java:64-78 | other methods and scope-less requests pass; the required scope must be one of the space-separated words, else 403 with `insufficient_scope` |
| TokenController.JoinedScopeGrants | natter-api/src/main/java/com/manning/apisecurityinaction/controller/TokenController.java:69-71 | a space-joined scope grants exactly its words |
| TokenController.Logout | natter-api/src/main/java/com/manning/apisecurityinaction/controller/TokenController.java:80-91 | the "Bearer " prefix is required and the rest is the token id |
| TokenController.LogoutBearer | natter-api/src/main/java/com/manning/apisecurityinaction/controller/TokenController.java:82-85 | "Bearer " + id logs out id |
| OAuth2Controller.SetOf | natter-api/src/main/java/com/manning/apisecurityinaction/controller/OAuth2Controller.java:40-41 | `Set.of` throws on a repeated element and otherwise holds exactly the elements |
| OAuth2Controller.IssueTokens | natter-api/src/main/java/com/manning/apisecurityinaction/controller/OAuth2Controller.java:31-80 | one clause per branch in order: unknown grant type is `unsupported_grant_type`; a repeated scope word throws; a word outside the RFC 6749 charset is `invalid_scope`; a known client asking for a word it is not allowed is 403 `access_denied`; then the grant type's exception propagates, its denial is `invalid_scope`, and its allowance issues a Bearer token for the resource owner that expires in 600 s and carries the granted words joined by spaces |
| OAuth2Controller.RepeatedScopeThrows | natter-api/src/main/java/com/manning/apisecurityinaction/controller/OAuth2Controller.java:40-41 | "w w" makes the request throw |
| OAuth2Controller.RequireScope | natter-api/src/main/java/com/manning/apisecurityinaction/controller/OAuth2Controller.java:82-99 | other methods and scope-less requests pass; a missing scope halts 401 with an `insufficient_scope` challenge |
| OAuth2Controller.IssuedScopeGrants | natter-api/src/main/java/com/manning/apisecurityinaction/controller/OAuth2Controller.java:71 | the issued space-joined scope grants exactly the granted words |
| AuthorizationServerController.AuthenticateClient | natter-api/src/main/java/com/manning/apisecurityinaction/controller/AuthorizationServerController.java:86-109 | blank id or secret, unknown client or a SHA-256 mismatch give `invalid_client`; a missing hash is a JSON error and a non-base64 hash a decoder error; success iff all checks pass, with the client's entry |
| AuthorizationServerController.ValidateScope | natter-api/src/main/java/com/manning/apisecurityinaction/controller/AuthorizationServerController.java:72-84 | the result is requested ∩ allowed, deduplicated, sorted and joined by single spaces |
| AuthorizationServerController.SortedUnique | natter-api/src/main/java/com/manning/apisecurityinaction/controller/AuthorizationServerController.java:76-83 | two strictly sorted lists with the same members are equal, so the scope string is unique |
| AuthorizationServerController.GrantedWords | natter-api/src/main/java/com/manning/apisecurityinaction/controller/AuthorizationServerController.java:83 | splitting the joined scope gives back the granted words |
| AuthorizationServerController.IssueAccessToken | natter-api/src/main/java/com/manning/apisecurityinaction/controller/AuthorizationServerController.java:30-70 | errors in order: grant type other than `password`; the client's authentication error; a missing or blank scope, user name or password, or an invalid user name, is `invalid_request`; a client without allowed scope throws; then success iff the password checks, else `invalid_grant`; success gives Bearer, 3600 s and the validated scope |
| CapabilityController.CreateUri | natter-api/src/main/java/com/manning/apisecurityinaction/controller/CapabilityController.java:22-33 | a token for the caller with path and perms, and path + "?access_token=" + id |
| CapabilityController.LookupPermissions | natter-api/src/main/java/com/manning/apisecurityinaction/controller/CapabilityController.java:35-50 | perms are set only for a readable token of the subject for this path |
| CapabilityController.QueryTokenId | natter-api/src/main/java/com/manning/apisecurityinaction/controller/CapabilityController.java:58 | the text after the first `=` |
| CapabilityController.QueryRoundTrip | natter-api/src/main/java/com/manning/apisecurityinaction/controller/CapabilityController.java:22-58 | taking the token id back out of the query text `access_token=<id>` gives the id that text was built from |
| CapabilityController.Share | natter-api/src/main/java/com/manning/apisecurityinaction/controller/CapabilityController.java:52-81 | one clause per branch in order: a null query throws; the store's exception propagates; a missing token is `NoSuchElementException`; another path is `incorrect path`; a token without perms throws; requested perms (default the token's) that are not a substring of the token's give 403; a missing user is a JSON error; otherwise a new token for the user with the original's expiry and path and the requested perms |
| CapabilityController.ShareAttenuates | natter-api/src/main/java/com/manning/apisecurityinaction/controller/CapabilityController.java:65-74 | a shared token keeps expiry and path and adds no permission letter |
| CapabilityController.ShareCreated | natter-api/src/main/java/com/manning/apisecurityinaction/controller/CapabilityController.java:22-81 | a capability just created can be shared with its own perms |
| AbacAccessController.TextOrNull | natter-api/src/main/java/com/manning/apisecurityinaction/controller/ABACAccessController.java:16 | a null attribute stays null |
| AbacAccessController.SubjectAttributes | natter-api/src/main/java/com/manning/apisecurityinaction/controller/ABACAccessController.java:14-17 | exactly user and groups |
| AbacAccessController.ResourceAttributes | natter-api/src/main/java/com/manning/apisecurityinaction/controller/ABACAccessController.java:19-21 | exactly path and space |
| AbacAccessController.ActionAttributes | natter-api/src/main/java/com/manning/apisecurityinaction/controller/ABACAccessController.java:23-24 | exactly method |
| AbacAccessController.EnvironmentAttributes | natter-api/src/main/java/com/manning/apisecurityinaction/controller/ABACAccessController.java:26-28 | exactly timeOfDay and ip |
| AbacAccessController.EnforcePolicy | natter-api/src/main/java/com/manning/apisecurityinaction/controller/ABACAccessController.java:12-35 | halts 403 exactly when the policy refuses the four maps |
| AbacAccessController.DenyOverrides | natter-api/src/main/java/com/manning/apisecurityinaction/controller/ABACAccessController.java:46-51 | after any votes the decision is permitted iff it started so and no vote denied |
| AbacAccessController.OrderIrrelevant | natter-api/src/main/java/com/manning/apisecurityinaction/controller/ABACAccessController.java:46-51 | the order of the rules' votes does not matter |
| AbacAccessController.Decision.constructor | natter-api/src/main/java/com/manning/apisecurityinaction/controller/ABACAccessController.java:44 | a new decision is permitted |
| AbacAccessController.Decision.Deny | natter-api/src/main/java/com/manning/apisecurityinaction/controller/ABACAccessController.java:46-48 | denies |
| AbacAccessController.Decision.Permit | natter-api/src/main/java/com/manning/apisecurityinaction/controller/ABACAccessController.java:50-51 | changes nothing |
| AbacAccessController.Decision.IsPermitted | natter-api/src/main/java/com/manning/apisecurityinaction/controller/ABACAccessController.java:53-55 | the current flag |
| IdTokenValidationFilter.CheckClaims | natter-api/src/main/java/com/manning/apisecurityinaction/controller/IdTokenValidationFilter.java:44-63 | issuer, audience, a non-string azp, azp against the client (only when both present) and subject checks, in that order, each with its own message; success iff all pass, keeping the claims |
| IdTokenValidationFilter.Handle | natter-api/src/main/java/com/manning/apisecurityinaction/controller/IdTokenValidationFilter.java:29-71 | no header or subject does nothing; a verification failure is `IllegalArgumentException`; verified claims are stored only if every check passes |
| IdTokenValidationFilter.AzpNeedsBoth | natter-api/src/main/java/com/manning/apisecurityinaction/controller/IdTokenValidationFilter.java:53-58 | without both azp and client id, the azp check is skipped |
| IdTokenValidationFilter.OtherSubjectRefused | natter-api/src/main/java/com/manning/apisecurityinaction/controller/IdTokenValidationFilter.java:60-63 | a token for another subject is refused |
| NatterJs.MapAll | natter-api/src/main/resources/public/natter.js:30-32 | maps a partial function over a list, failing iff an element fails |
| NatterJs.DecodeParts | natter-api/src/main/resources/public/natter.js:31-32 | each part is trimmed then URI-decoded; a malformed escape fails |
| NatterJs.DecodeItem | natter-api/src/main/resources/public/natter.js:31-32 | one decoded part per `=`-separated piece |
| NatterJs.DecodeItems | natter-api/src/main/resources/public/natter.js:30-32 | every item decoded, or a failure |
| NatterJs.FirstNamed | natter-api/src/main/resources/public/natter.js:33-35 | the first row whose decoded name matches, or none |
| NatterJs.FirstNamedAt | natter-api/src/main/resources/public/natter.js:33-35 | the first match is found at its index |
| NatterJs.GetCookie | natter-api/src/main/resources/public/natter.js:29-38 | `URIError` iff some part fails to decode; undefined without a match or value; otherwise the first match's second part |
| NatterJs.ItemParts | natter-api/src/main/resources/public/natter.js:31-32 | plain parts joined by `=` decode back to the parts |
| NatterJs.ItemHasNoSemicolon | natter-api/src/main/resources/public/natter.js:30 | plain parts joined by `=` have no `;` |
| NatterJs.NoNewLetters | natter-api/src/main/resources/public/natter.js:30-31 | a joined string's characters come from the parts or the separator |
| NatterJs.ItemsDecoded | natter-api/src/main/resources/public/natter.js:30-32 | `name=value` items joined by `;` decode to their pairs |
| NatterJs.CookieFound | natter-api/src/main/resources/public/natter.js:29-38 | the first cookie with that name yields its value |
| NatterJs.ValueEndsAtSecondEquals | natter-api/src/main/resources/public/natter.js:31-36 | `name=a=b` yields `a` |
| JavaStrings.IndexOf | natter-api/src/main/java/com/manning/apisecurityinaction/token/JwtHeaderTokenStore.java:29 | the first occurrence, or -1 iff absent |
| JavaStrings.IndexOfJoined | natter-api/src/main/java/com/manning/apisecurityinaction/token/UnauthenticatedEncryptionStore.java:58-61 | splitting a + c + b at the first c (absent from a) gives back a and b |
| JavaStrings.LastIndexOf | natter-api/src/main/java/com/manning/apisecurityinaction/token/HmacTokenStore.java:49 | the last occurrence, or -1 iff absent |
| JavaStrings.Contains | natter-api/src/main/java/com/manning/apisecurityinaction/controller/UserController.java:168 | true iff the substring occurs somewhere |
| JavaStrings.ContainsLetters | natter-api/src/main/java/com/manning/apisecurityinaction/controller/CapabilityController.java:67 | a contained substring's letters occur in the string |
| JavaStrings.Pieces | natter-api/src/main/resources/public/natter.js:30 | at least one piece and no separator inside a piece |
| JavaStrings.JoinPieces | natter-api/src/main/resources/public/natter.js:30 | joining the pieces with the separator gives back the string |
| JavaStrings.DropTrailingEmpty | natter-api/src/main/java/com/manning/apisecurityinaction/controller/TokenController.java:70 | `split` drops exactly the trailing empty strings |
| JavaStrings.Split | natter-api/src/main/java/com/manning/apisecurityinaction/controller/TokenController.java:70 | no piece contains the separator |
| JavaStrings.SplitMembers | natter-api/src/main/java/com/manning/apisecurityinaction/controller/TokenController.java:70-71 | a non-empty word is in `split` iff it is a piece |
| JavaStrings.PiecesJoin | natter-api/src/main/java/com/manning/apisecurityinaction/controller/OAuth2Controller.java:71 | separator-free parts joined then split give back the parts |
| JavaStrings.SplitJoin | natter-api/src/main/java/com/manning/apisecurityinaction/controller/OAuth2Controller.java:90 | non-empty, separator-free parts survive `String.join` then `split` |
| JavaStrings.LessIrreflexive | natter-api/src/main/java/com/manning/apisecurityinaction/controller/AuthorizationServerController.java:76 | the `TreeSet` order is irreflexive |
| JavaStrings.LessTotal | natter-api/src/main/java/com/manning/apisecurityinaction/controller/AuthorizationServerController.java:76 | the `TreeSet` order is total |
| JavaStrings.LessTransitive | natter-api/src/main/java/com/manning/apisecurityinaction/controller/AuthorizationServerController.java:76 | the `TreeSet` order is transitive |
| JavaStrings.LessAsymmetric | natter-api/src/main/java/com/manning/apisecurityinaction/controller/AuthorizationServerController.java:76 | the `TreeSet` order is asymmetric |
| JavaStrings.Insert | natter-api/src/main/java/com/manning/apisecurityinaction/controller/AuthorizationServerController.java:79 | `TreeSet.add` keeps the set sorted and adds exactly the element |
| JavaStrings.SplitOnce | natter-api/src/main/java/com/manning/apisecurityinaction/controller/UserController.java:119 | `split(":", 2)` gives one part iff there is no colon, else the parts around the first colon |
| JavaStrings.JsTrim | natter-api/src/main/resources/public/natter.js:32 | `trim` never lengthens its input |
| JavaStrings.JsTrimInfix | natter-api/src/main/resources/public/natter.js:32 | the trimmed text is a substring with no whitespace at either end |
| JavaStrings.UpperAscii | natter-api/src/main/java/com/manning/apisecurityinaction/DtlsDatagramSocket.java:61 | lower-case ASCII letters map to upper case, other characters stay |
| JavaStrings.EqualsIgnoreCaseUpper | natter-api/src/main/java/com/manning/apisecurityinaction/DtlsDatagramSocket.java:61 | `equalsIgnoreCase` holds iff the upper-cased strings are equal |
| DtlsPacketDebug.VersionsComplete | natter-api/src/main/java/com/manning/apisecurityinaction/DtlsPacketDebug.java:14-21 | `values()` lists every version |
| DtlsPacketDebug.FindVersion | natter-api/src/main/java/com/manning/apisecurityinaction/DtlsPacketDebug.java:30-36 | the linear search returns a listed version with that byte pair, or null iff none has it |
| DtlsPacketDebug.GetVersion | natter-api/src/main/java/com/manning/apisecurityinaction/DtlsPacketDebug.java:30-36 | the version with that byte pair, or null iff none |
| DtlsPacketDebug.GetVersionInverse | natter-api/src/main/java/com/manning/apisecurityinaction/DtlsPacketDebug.java:14-36 | the seven pairs are distinct, so get(v.major, v.minor) == v |
| DtlsPacketDebug.ContentTypesComplete | natter-api/src/main/java/com/manning/apisecurityinaction/DtlsPacketDebug.java:39-43 | `values()` lists every content type |
| DtlsPacketDebug.FindContentType | natter-api/src/main/java/com/manning/apisecurityinaction/DtlsPacketDebug.java:51-57 | the linear search returns a listed type with that code, or null iff none has it |
| DtlsPacketDebug.GetContentType | natter-api/src/main/java/com/manning/apisecurityinaction/DtlsPacketDebug.java:51-57 | the type with that code, or null iff none |
| DtlsPacketDebug.ContentTypeCodes | natter-api/src/main/java/com/manning/apisecurityinaction/DtlsPacketDebug.java:39-57 | exactly 20..23 are known, and get inverts the code |
| DtlsPacketDebug.MessageTypesComplete | natter-api/src/main/java/com/manning/apisecurityinaction/DtlsPacketDebug.java:61-73 | `values()` lists every message type |
| DtlsPacketDebug.FindMessageType | natter-api/src/main/java/com/manning/apisecurityinaction/DtlsPacketDebug.java:81-88 | the linear search returns a listed type with that code, or null iff none has it |
| DtlsPacketDebug.GetMessageType | natter-api/src/main/java/com/manning/apisecurityinaction/DtlsPacketDebug.java:81-88 | the message type with that code, or null iff none |
| DtlsPacketDebug.MessageTypeInverse | natter-api/src/main/java/com/manning/apisecurityinaction/DtlsPacketDebug.java:61-88 | get inverts the code for all 11 types, HELLO_VERIFY_REQUEST = 3 included |
| DtlsPacketDebug.RecordFields | natter-api/src/main/java/com/manning/apisecurityinaction/DtlsPacketDebug.java:97-108 | epoch and length are below 2^16 and the sequence number below 2^48 |
| DtlsPacketDebug.HandshakeFields | natter-api/src/main/java/com/manning/apisecurityinaction/DtlsPacketDebug.java:115-119 | the message length is below 2^24 |
| DtlsPacketDebug.DecodeRecord | natter-api/src/main/java/com/manning/apisecurityinaction/DtlsPacketDebug.java:92-125 | underflow iff fewer than 13 bytes, or fewer than 17 for a HANDSHAKE record; handshake fields present iff the type is HANDSHAKE |
| DtlsPacketDebug.SequenceField | natter-api/src/main/java/com/manning/apisecurityinaction/DtlsPacketDebug.java:106-107 | a 32-bit and a 16-bit read make the 48-bit big-endian sequence number |
| DtlsPacketDebug.MessageLengthField | natter-api/src/main/java/com/manning/apisecurityinaction/DtlsPacketDebug.java:118-119 | a 16-bit read and a byte make the 24-bit big-endian length |
| DtlsPacketDebug.EncodeRecord | natter-api/src/main/java/com/manning/apisecurityinaction/DtlsPacketDebug.java:97-119 | a header as a sender writes it is 13 bytes, 17 for a handshake |
| DtlsPacketDebug.DecodeEncode | natter-api/src/main/java/com/manning/apisecurityinaction/DtlsPacketDebug.java:92-125 | decoding an encoded header followed by any payload gives back its fields |
| DtlsPacketDebug.EncodedSlices | natter-api/src/main/java/com/manning/apisecurityinaction/DtlsPacketDebug.java:97-108 | where each header field sits in the encoded bytes |
| DtlsPacketDebug.HeaderFieldsEncoded | natter-api/src/main/java/com/manning/apisecurityinaction/DtlsPacketDebug.java:97-108 | the record fields of an encoded header are its own |
| DtlsPacketDebug.GetUnsigned | natter-api/src/main/java/com/manning/apisecurityinaction/DtlsPacketDebug.java:105 | a masked `get`/`getShort`/`getInt` reads the next n bytes as an unsigned value, or underflows |
| DtlsPacketDebug.GetByte | natter-api/src/main/java/com/manning/apisecurityinaction/DtlsPacketDebug.java:97 | `get` reads the next byte, or underflows |
| DtlsPacketDebug.GetTypeAndVersion | natter-api/src/main/java/com/manning/apisecurityinaction/DtlsPacketDebug.java:97-102 | content type and version from the first three bytes |
| DtlsPacketDebug.GetCounters | natter-api/src/main/java/com/manning/apisecurityinaction/DtlsPacketDebug.java:105-108 | epoch, sequence number and length from the next ten bytes |
| DtlsPacketDebug.GetRecordHeader | natter-api/src/main/java/com/manning/apisecurityinaction/DtlsPacketDebug.java:97-108 | the record fields of the first 13 readable bytes, or underflow |
| DtlsPacketDebug.GetHandshakeHeader | natter-api/src/main/java/com/manning/apisecurityinaction/DtlsPacketDebug.java:114-122 | the handshake fields of bytes 13..16, or underflow |
| DtlsPacketDebug.Debug | natter-api/src/main/java/com/manning/apisecurityinaction/DtlsPacketDebug.java:92-125 | reads through a duplicate, leaving the caller's buffer unchanged, and returns what `DecodeRecord` decodes |
| Oscore.KeyInfo | natter-api/src/main/java/com/manning/apisecurityinaction/Oscore.java:17-23 | [id, idContext, alg, "Key", keySize/8] |
| Oscore.IvInfo | natter-api/src/main/java/com/manning/apisecurityinaction/Oscore.java:32-37 | [empty, idContext, alg, "IV", ivLength] |
| Oscore.KeyAndIvInfoDiffer | natter-api/src/main/java/com/manning/apisecurityinaction/Oscore.java:17-37 | key and IV derivations never share their info |
| Oscore.KeyInfoSeparatesIds | natter-api/src/main/java/com/manning/apisecurityinaction/Oscore.java:17-23 | different ids give different key info |
| Oscore.DeriveKey | natter-api/src/main/java/com/manning/apisecurityinaction/Oscore.java:13-27 | HKDF-Expand of the key info to keySize/8 bytes; 0 bytes is `IllegalArgumentException`, 255·32 or more `IndexOutOfBoundsException` |
| Oscore.DeriveCommonIv | natter-api/src/main/java/com/manning/apisecurityinaction/Oscore.java:29-41 | HKDF-Expand of the IV info to ivLength bytes; 0 bytes is `IllegalArgumentException`, 255·32 or more `IndexOutOfBoundsException` |
| Oscore.Xor | natter-api/src/main/java/com/manning/apisecurityinaction/Oscore.java:60-64 | `xs` becomes xs XOR ys in place; a shorter `ys` throws after XOR-ing its length |
| Oscore.PartialIv | natter-api/src/main/java/com/manning/apisecurityinaction/Oscore.java:55-56 | the Partial IV has 5 bytes |
| Oscore.PartialIvValue | natter-api/src/main/java/com/manning/apisecurityinaction/Oscore.java:55-56 | the 5 bytes are the sequence number mod 2^40, big-endian |
| Oscore.NonceLayout | natter-api/src/main/java/com/manning/apisecurityinaction/Oscore.java:51-56 | the pre-XOR layout of section 5.2 of RFC 8613 has ivLength bytes |
| Oscore.NonceLayoutInjective | natter-api/src/main/java/com/manning/apisecurityinaction/Oscore.java:51-56 | equal layouts have equal ids and equal sequence numbers mod 2^40 |
| Oscore.PutAfter | natter-api/src/main/java/com/manning/apisecurityinaction/Oscore.java:53-54 | a bulk `put` appends after what is written; the rest stays zero |
| Oscore.PutPartialIv | natter-api/src/main/java/com/manning/apisecurityinaction/Oscore.java:55-56 | the two puts append the Partial IV |
| Oscore.PutHeader | natter-api/src/main/java/com/manning/apisecurityinaction/Oscore.java:51-54 | the length byte, zero padding and id |
| Oscore.FillLayout | natter-api/src/main/java/com/manning/apisecurityinaction/Oscore.java:51-56 | the buffer's array holds the layout |
| Oscore.Nonce | natter-api/src/main/java/com/manning/apisecurityinaction/Oscore.java:43-58 | sequence number above 2^40, then an oversized id, throw; a short common IV throws; otherwise layout XOR common IV |
| Oscore.NonceReusedAt2To40 | natter-api/src/main/java/com/manning/apisecurityinaction/Oscore.java:45 | 2^40 passes the guard and lays out like 0 |
| Oscore.CheckedNonce | natter-api/src/main/java/com/manning/apisecurityinaction/Oscore.java:43-58 | the nonce with the guard corrected to 0 ≤ s < 2^40 |
| Oscore.CheckedNonceInjective | natter-api/src/main/java/com/manning/apisecurityinaction/Oscore.java:43-58 | with the corrected guard, equal nonces have equal ids and equal sequence numbers |
| ByteBuffers.ByteBuffer.Allocate | natter-api/src/main/java/com/manning/apisecurityinaction/DtlsDatagramSocket.java:147-148 | zero-filled, position 0, limit = capacity |
| ByteBuffers.ByteBuffer.Wrap | natter-api/src/main/java/com/manning/apisecurityinaction/DtlsDatagramSocket.java:89-90 | a view of the array from offset for length bytes |
| ByteBuffers.ByteBuffer.PutBytes | natter-api/src/main/java/com/manning/apisecurityinaction/DtlsDatagramSocket.java:164 | appends, or `BufferOverflowException` with no change |
| ByteBuffers.ByteBuffer.GetBytes | natter-api/src/main/java/com/manning/apisecurityinaction/DtlsDatagramSocket.java:210-211 | reads the next n bytes, or `BufferUnderflowException` with no change |
| ByteBuffers.ByteBuffer.GetInto | natter-api/src/main/java/com/manning/apisecurityinaction/DtlsDatagramSocket.java:138-139 | copies into the array range, range check before underflow |
| ByteBuffers.ByteBuffer.PutBuffer | natter-api/src/main/java/com/manning/apisecurityinaction/DtlsDatagramChannel.java:243 | appends the other buffer's readable bytes, or overflows with no change |
| ByteBuffers.ByteBuffer.Flip | natter-api/src/main/java/com/manning/apisecurityinaction/DtlsDatagramChannel.java:92 | the written bytes become the readable ones |
| ByteBuffers.ByteBuffer.Compact | natter-api/src/main/java/com/manning/apisecurityinaction/DtlsDatagramChannel.java:94 | unread bytes move to the front and the buffer appends after them |
| Datagrams.SkipDropsOnlyRejected | natter-api/src/main/java/com/manning/apisecurityinaction/DtlsDatagramChannel.java:20-22 | a receive drops only datagrams from peers other than the connected one |
| Datagrams.DatagramPacket.constructor | natter-api/src/main/java/com/manning/apisecurityinaction/DtlsDatagramSocket.java:150-151 | a packet over the whole array, with the given address |
| Datagrams.DatagramPacket.SetData | natter-api/src/main/java/com/manning/apisecurityinaction/DtlsDatagramSocket.java:212 | the whole new array, offset 0 |
| Datagrams.DatagramPacket.SetSocketAddress | natter-api/src/main/java/com/manning/apisecurityinaction/DtlsDatagramSocket.java:153 | the address is set |
| Datagrams.DatagramPacket.SetLength | natter-api/src/main/java/com/manning/apisecurityinaction/DtlsDatagramSocket.java:140 | `IllegalArgumentException` iff offset + len exceeds the array |
| Datagrams.DatagramPacket.Fill | natter-api/src/main/java/com/manning/apisecurityinaction/DtlsDatagramSocket.java:162 | received bytes land at the offset, with their length and sender |
| Datagrams.Transport.constructor | natter-api/src/main/java/com/manning/apisecurityinaction/DtlsDatagramChannel.java:38 | an unconnected endpoint with nothing sent |
| Datagrams.Transport.Connect | natter-api/src/main/java/com/manning/apisecurityinaction/DtlsDatagramChannel.java:64-67 | connected to the peer |
| Datagrams.Transport.Disconnect | natter-api/src/main/java/com/manning/apisecurityinaction/DtlsDatagramChannel.java:134 | not connected |
| Datagrams.Transport.NextDatagram | natter-api/src/main/java/com/manning/apisecurityinaction/DtlsDatagramChannel.java:106 | the next accepted datagram, skipping rejected ones |
| Datagrams.Transport.Receive | natter-api/src/main/java/com/manning/apisecurityinaction/DtlsDatagramChannel.java:106 | the next accepted datagram cut to the buffer's room, and its sender |
| Datagrams.Transport.Write | natter-api/src/main/java/com/manning/apisecurityinaction/DtlsDatagramChannel.java:101 | the readable bytes go out as one datagram to the peer |
| Datagrams.Transport.ReceivePacket | natter-api/src/main/java/com/manning/apisecurityinaction/DtlsDatagramSocket.java:126 | the next accepted datagram, cut to the packet's length, lands in the packet |
| Datagrams.Transport.SendPacket | natter-api/src/main/java/com/manning/apisecurityinaction/DtlsDatagramSocket.java:105 | refuses an unaddressed packet on an unconnected socket, or a foreign address on a connected one; otherwise sends the payload |
| SslEngines.HandshakeStatusOf | natter-api/src/main/java/com/manning/apisecurityinaction/DtlsDatagramChannel.java:183 | never FINISHED; NEED_TASK exactly while a task is next |
| SslEngines.CreateEngine | natter-api/src/main/java/com/manning/apisecurityinaction/DtlsDatagramChannel.java:80-82 | not handshaking, with the role, peer and packet size the wrapper sets |
| SslEngines.BeginHandshake | natter-api/src/main/java/com/manning/apisecurityinaction/DtlsDatagramChannel.java:174 | moves to the first handshake status and changes nothing else |
| SslEngines.RunDelegatedTask | natter-api/src/main/java/com/manning/apisecurityinaction/DtlsDatagramChannel.java:211-213 | null iff no task is next; otherwise the engine after the task |
| SslEngines.RunDelegatedTasks | natter-api/src/main/java/com/manning/apisecurityinaction/DtlsDatagramChannel.java:209-217 | runs tasks until none is next |
| SslEngines.Produced | natter-api/src/main/java/com/manning/apisecurityinaction/DtlsDatagramChannel.java:93 | a wrap or unwrap writes at most the room left, and only scripted output |
| SslEngines.Exchange | natter-api/src/main/java/com/manning/apisecurityinaction/DtlsDatagramChannel.java:120 | consumes and produces within bounds, and the result's handshake status becomes the engine's |
| DtlsChannel.EnsureCapacity | natter-api/src/main/java/com/manning/apisecurityinaction/DtlsDatagramChannel.java:239-247 | the same buffer when enough remains; otherwise a new one of capacity position + required, with the same written bytes |
| DtlsChannel.DtlsDatagramChannel.constructor | natter-api/src/main/java/com/manning/apisecurityinaction/DtlsDatagramChannel.java:37-43 | unconnected, no engine, a 2048-byte receive buffer |
| DtlsChannel.DtlsDatagramChannel.Connect | natter-api/src/main/java/com/manning/apisecurityinaction/DtlsDatagramChannel.java:64-67 | connected to the peer |
| DtlsChannel.DtlsDatagramChannel.Send | natter-api/src/main/java/com/manning/apisecurityinaction/DtlsDatagramChannel.java:73-103 | unconnected throws; the first call creates one client engine; for the engine the send goes through, the result is `SendOutcome`: its error, or one datagram to the peer holding the queued bytes and the engine's output |
| DtlsChannel.SendOutcome | natter-api/src/main/java/com/manning/apisecurityinaction/DtlsDatagramChannel.java:87-102 | a send succeeds iff the handshake is over, the data fits the application buffer and the wrap is OK; the datagram then holds the queued bytes followed by at most the buffer's room |
| DtlsChannel.DtlsDatagramChannel.StartClient | natter-api/src/main/java/com/manning/apisecurityinaction/DtlsDatagramChannel.java:78-85 | a client engine for the connected peer, and the handshake |
| DtlsChannel.DtlsDatagramChannel.WrapAndWrite | natter-api/src/main/java/com/manning/apisecurityinaction/DtlsDatagramChannel.java:87-102 | for data that fits, a wrap that is not OK is exactly the "Wrap failed" error; otherwise the send buffer goes out |
| DtlsChannel.DtlsDatagramChannel.WrapApplication | natter-api/src/main/java/com/manning/apisecurityinaction/DtlsDatagramChannel.java:92-94 | the send buffer gains exactly the engine's output, and the status is the engine's scripted outcome for its room |
| DtlsChannel.DtlsDatagramChannel.Receive | natter-api/src/main/java/com/manning/apisecurityinaction/DtlsDatagramChannel.java:105-139 | nothing to receive blocks; the first call creates one server engine for the first sender; for the engine the receive goes through, underflow and overflow are errors, OK returns the peer, and engine and connection are dropped together on CLOSED; a receive that keeps its session leaves the channel connected to the sender |
| DtlsChannel.DtlsDatagramChannel.UnwrapReceived | natter-api/src/main/java/com/manning/apisecurityinaction/DtlsDatagramChannel.java:119-136 | the caller's buffer gains exactly the engine's plaintext; underflow and overflow are errors; OK succeeds and keeps the engine and the connection; CLOSED either blocks in the engine loop or drops engine and connection together |
| DtlsChannel.DtlsDatagramChannel.ReceiveSession | natter-api/src/main/java/com/manning/apisecurityinaction/DtlsDatagramChannel.java:106-117 | connects to the first sender; a server engine only when there was none; with an engine and a datagram waiting it succeeds |
| DtlsChannel.DtlsDatagramChannel.CloseSession | natter-api/src/main/java/com/manning/apisecurityinaction/DtlsDatagramChannel.java:129-136 | after the engine loop, the engine is dropped and the channel disconnected |
| DtlsChannel.DtlsDatagramChannel.Accept | natter-api/src/main/java/com/manning/apisecurityinaction/DtlsDatagramChannel.java:110-117 | a server engine for the sender, the handshake and a second receive |
| DtlsChannel.DtlsDatagramChannel.Handshake | natter-api/src/main/java/com/manning/apisecurityinaction/DtlsDatagramChannel.java:169-180 | unconnected throws; otherwise fresh buffers of the session's sizes and the engine loop, ending in FINISHED or NOT_HANDSHAKING |
| DtlsChannel.DtlsDatagramChannel.ProcessEngineLoop | natter-api/src/main/java/com/manning/apisecurityinaction/DtlsDatagramChannel.java:182-237 | exits only on FINISHED or NOT_HANDSHAKING, and the `default` branch is unreachable |
| DtlsChannel.DtlsDatagramChannel.HandshakeStep | natter-api/src/main/java/com/manning/apisecurityinaction/DtlsDatagramChannel.java:187-234 | each case moves the script on or lowers the status rank |
| DtlsChannel.DtlsDatagramChannel.UnwrapStep | natter-api/src/main/java/com/manning/apisecurityinaction/DtlsDatagramChannel.java:188-208 | NEED_UNWRAP receives only into an empty buffer: nothing waiting blocks, otherwise the datagram is consumed; with data already buffered the inbox is untouched |
| DtlsChannel.DtlsDatagramChannel.UnwrapHandshake | natter-api/src/main/java/com/manning/apisecurityinaction/DtlsDatagramChannel.java:193-207 | the underflow loop ends with a status other than BUFFER_UNDERFLOW; if the first unwrap does not underflow, nothing more is received |
| DtlsChannel.DtlsDatagramChannel.Refill | natter-api/src/main/java/com/manning/apisecurityinaction/DtlsDatagramChannel.java:199-204 | grow, receive, unwrap again |
| DtlsChannel.DtlsDatagramChannel.UnwrapInto | natter-api/src/main/java/com/manning/apisecurityinaction/DtlsDatagramChannel.java:119-121 | the caller's buffer gains exactly the engine's output, and the status is the engine's scripted outcome for its room |
| DtlsChannel.DtlsDatagramChannel.UnwrapBuffered | natter-api/src/main/java/com/manning/apisecurityinaction/DtlsDatagramChannel.java:193-195 | flip, unwrap into the application buffer, compact; the status is the engine's scripted outcome |
| DtlsChannel.DtlsDatagramChannel.ReceiveDatagram | natter-api/src/main/java/com/manning/apisecurityinaction/DtlsDatagramChannel.java:190 | blocks iff no accepted datagram waits, leaving the receive buffer as it was; otherwise the next one leaves the inbox and its first bytes, as many as the buffer has room for, are appended to what the buffer has written |
| DtlsChannel.DtlsDatagramChannel.GrowReceiveBuffer | natter-api/src/main/java/com/manning/apisecurityinaction/DtlsDatagramChannel.java:199-200 | keeps the buffered bytes and leaves room for a packet |
| DtlsChannel.DtlsDatagramChannel.RunTasks | natter-api/src/main/java/com/manning/apisecurityinaction/DtlsDatagramChannel.java:209-217 | afterwards the engine does not report NEED_TASK |
| DtlsChannel.DtlsDatagramChannel.WrapHandshake | natter-api/src/main/java/com/manning/apisecurityinaction/DtlsDatagramChannel.java:218-230 | wrap, and send only a non-empty record |
| DtlsChannel.DtlsDatagramChannel.FlushSendBuffer | natter-api/src/main/java/com/manning/apisecurityinaction/DtlsDatagramChannel.java:224-228 | a non-empty buffer goes out and is compacted; an empty one stays flipped |
| DtlsSocket.Open | natter-api/src/main/java/com/manning/apisecurityinaction/DtlsDatagramSocket.java:57-66 | `IllegalArgumentException` iff the protocol is not "DTLS" in any case |
| DtlsSocket.ReceiveRecord | natter-api/src/main/java/com/manning/apisecurityinaction/DtlsDatagramSocket.java:126-140 | receive, unwrap into a buffer as large as the array, and deliver; a non-OK unwrap is exactly the `IOException`, and an OK one fails iff the plaintext does not fit the array; the offset is kept, and on success the packet's length and room are the plaintext's |
| DtlsSocket.Deliver | natter-api/src/main/java/com/manning/apisecurityinaction/DtlsDatagramSocket.java:137-140 | the plaintext is copied to the start of the array, as much as fits; `setLength` fails iff it does not fit after the offset; on success the length and the room are the plaintext's and the array starts with it |
| DtlsSocket.ProcessPacket | natter-api/src/main/java/com/manning/apisecurityinaction/DtlsDatagramSocket.java:89-98 | the packet's bytes through the engine; an error iff the engine's outcome is not OK |
| DtlsSocket.DtlsDatagramSocket.constructor | natter-api/src/main/java/com/manning/apisecurityinaction/DtlsDatagramSocket.java:57-66 | no engine, unconnected |
| DtlsSocket.DtlsDatagramSocket.Connect | natter-api/src/main/java/com/manning/apisecurityinaction/DtlsDatagramSocket.java:72 | connected to the peer |
| DtlsSocket.DtlsDatagramSocket.Send | natter-api/src/main/java/com/manning/apisecurityinaction/DtlsDatagramSocket.java:68-106 | unconnected throws; the first call creates the only client engine, and a handshake ending otherwise than FINISHED fails; not NOT_HANDSHAKING is an error; a non-OK wrap is the `IOException`; once not handshaking, it succeeds iff the wrap is OK, the record header decodes and the packet's address is set and is the peer; success sends the engine's output to the peer |
| DtlsSocket.DtlsDatagramSocket.SendRecord | natter-api/src/main/java/com/manning/apisecurityinaction/DtlsDatagramSocket.java:98-105 | a non-OK wrap is the `IOException`; an undecodable header is its decoding error; it succeeds iff the wrap is OK, the header decodes and the packet's address is set and is the peer, and then the wrapped record goes to that address as one datagram |
| DtlsSocket.DtlsDatagramSocket.WrapRecord | natter-api/src/main/java/com/manning/apisecurityinaction/DtlsDatagramSocket.java:89-102 | a non-OK wrap is the `IOException`; an OK wrap succeeds iff its output decodes as a record header, and otherwise fails with the decoding error |
| DtlsSocket.DtlsDatagramSocket.Receive | natter-api/src/main/java/com/manning/apisecurityinaction/DtlsDatagramSocket.java:117-141 | the first call creates the only server engine, which is never replaced; nothing waiting blocks; a non-OK unwrap of the waiting datagram is the `IOException`; after an OK unwrap it fails iff the plaintext does not fit after the packet's offset; success delivers the plaintext and sender and sets the packet's length and room to the plaintext's; the offset is never changed |
| DtlsSocket.DtlsDatagramSocket.Handshake | natter-api/src/main/java/com/manning/apisecurityinaction/DtlsDatagramSocket.java:143-226 | ends only on FINISHED; errors are the listed exceptions or blocking; NEED_WRAP runs the corrected step (see Findings) |
| DtlsSocket.DtlsDatagramSocket.HandshakePacket | natter-api/src/main/java/com/manning/apisecurityinaction/DtlsDatagramSocket.java:150-154 | 1024 zero bytes, addressed like the caller's packet |
| DtlsSocket.DtlsDatagramSocket.HandshakeStep | natter-api/src/main/java/com/manning/apisecurityinaction/DtlsDatagramSocket.java:160-223 | NOT_HANDSHAKING is an unexpected state; each case moves the script on or lowers the rank |
| DtlsSocket.DtlsDatagramSocket.ReceiveAndUnwrap | natter-api/src/main/java/com/manning/apisecurityinaction/DtlsDatagramSocket.java:161-176 | the datagram is appended to `netData` (overflow iff it does not fit), then unwrapped |
| DtlsSocket.DtlsDatagramSocket.UnwrapNetData | natter-api/src/main/java/com/manning/apisecurityinaction/DtlsDatagramSocket.java:177-188 | an error iff the engine's outcome for the room is not OK, and then exactly "Unwrap failed"; `appData` gains exactly the output |
| DtlsSocket.DtlsDatagramSocket.WrapAndSend | natter-api/src/main/java/com/manning/apisecurityinaction/DtlsDatagramSocket.java:198-219 | the corrected NEED_WRAP: sends a non-empty record and leaves `netData` compacted |
| DtlsSocket.DtlsDatagramSocket.WrapAndSendAsWritten | natter-api/src/main/java/com/manning/apisecurityinaction/DtlsDatagramSocket.java:198-219 | the NEED_WRAP as written leaves `netData` with no room |
| DtlsSocket.DtlsDatagramSocket.WrapThenUnwrapAsWritten | natter-api/src/main/java/com/manning/apisecurityinaction/DtlsDatagramSocket.java:161-219 | after the as-written wrap, the next non-empty datagram overflows |
| DtlsSocket.DtlsDatagramSocket.WrapThenUnwrap | natter-api/src/main/java/com/manning/apisecurityinaction/DtlsDatagramSocket.java:161-219 | after the corrected wrap, the next datagram never overflows |
| DtlsSocket.DtlsDatagramSocket.WrapNetData | natter-api/src/main/java/com/manning/apisecurityinaction/DtlsDatagramSocket.java:199-207 | a non-OK wrap is "Wrap failed"; an OK wrap succeeds iff its output decodes as a record header |
| DtlsSocket.DtlsDatagramSocket.SendNetData | natter-api/src/main/java/com/manning/apisecurityinaction/DtlsDatagramSocket.java:209-217 | a non-empty record becomes the packet's data and is sent |
| DtlsLegacySocket.Open | natter-api/src/main/java/com/manning/apisecurityinaction/DTLSDatagramSocket.java:26-32 | `IllegalArgumentException` iff the protocol is not "DTLS" in any case |
| DtlsLegacySocket.RolesAlternate | natter-api/src/main/java/com/manning/apisecurityinaction/DTLSDatagramSocket.java:37-39 | a send to the same peer keeps a client engine, a receive replaces it, and the reverse for a server engine |
| DtlsLegacySocket.ReceivedFromInbox | natter-api/src/main/java/com/manning/apisecurityinaction/DTLSDatagramSocket.java:120 | a received datagram comes from a sender in the inbox |
| DtlsLegacySocket.DTLSDatagramSocket.constructor | natter-api/src/main/java/com/manning/apisecurityinaction/DTLSDatagramSocket.java:26-32 | no engine, unconnected |
| DtlsLegacySocket.DTLSDatagramSocket.Send | natter-api/src/main/java/com/manning/apisecurityinaction/DTLSDatagramSocket.java:34-72 | a new client engine with the array length as packet size iff none, server mode or another peer; then NOT_HANDSHAKING is required; a non-OK wrap is the `IOException`; once not handshaking, it succeeds iff the wrap is OK and the address agrees with any connected peer; success sends the engine's output to the packet's address |
| DtlsLegacySocket.DTLSDatagramSocket.SendRecord | natter-api/src/main/java/com/manning/apisecurityinaction/DTLSDatagramSocket.java:56-71 | the `IOException` iff the wrap is not OK; it succeeds iff the wrap is OK and the address agrees with any connected peer, and then one datagram goes to the packet's address |
| DtlsLegacySocket.DTLSDatagramSocket.Receive | natter-api/src/main/java/com/manning/apisecurityinaction/DTLSDatagramSocket.java:74-102 | a new server engine iff none or client mode; no NOT_HANDSHAKING check; nothing waiting blocks; a non-OK unwrap is the `IOException`; after an OK unwrap it fails iff the plaintext does not fit; success delivers the plaintext and sender and sets the packet's length and room to the plaintext's; the offset is never changed |
| DtlsLegacySocket.DTLSDatagramSocket.Handshake | natter-api/src/main/java/com/manning/apisecurityinaction/DTLSDatagramSocket.java:104-170 | ends only on FINISHED; every datagram goes to localhost:54321 or to a sender heard from |
| DtlsLegacySocket.DTLSDatagramSocket.HandshakeStep | natter-api/src/main/java/com/manning/apisecurityinaction/DTLSDatagramSocket.java:117-167 | wrap and unwrap statuses are ignored; only blocking, a refused send or NOT_HANDSHAKING fail |
| DtlsLegacySocket.DTLSDatagramSocket.ReceiveAndUnwrap | natter-api/src/main/java/com/manning/apisecurityinaction/DTLSDatagramSocket.java:118-129 | a fresh array, a receive that readdresses the packet, and an unwrap |
| DtlsLegacySocket.DTLSDatagramSocket.UnwrapAgain | natter-api/src/main/java/com/manning/apisecurityinaction/DTLSDatagramSocket.java:130-136 | unwrap from an empty buffer |
| DtlsLegacySocket.DTLSDatagramSocket.Unwrap | natter-api/src/main/java/com/manning/apisecurityinaction/DTLSDatagramSocket.java:124-128 | the reported handshake status is next, whatever the result's status |
| DtlsLegacySocket.DTLSDatagramSocket.WrapAndSend | natter-api/src/main/java/com/manning/apisecurityinaction/DTLSDatagramSocket.java:146-163 | wrap into 32768 bytes; a non-empty record is sent to the packet's address |
| DtlsLegacySocket.DTLSDatagramSocket.Wrap | natter-api/src/main/java/com/manning/apisecurityinaction/DTLSDatagramSocket.java:147-152 | the fresh buffer holds exactly the engine's output |
| DtlsLegacySocket.DTLSDatagramSocket.SendHandshakePacket | natter-api/src/main/java/com/manning/apisecurityinaction/DTLSDatagramSocket.java:154-162 | the record becomes the packet's data and is sent |

## Left out

- Real cryptography is a parameter: HMAC, SHA-256, AES-CTR, scrypt, JOSE
  verification and X.509 parsing. `Hkdf.TagsAre32Bytes` is the only
  assumption made about the MAC.
- `SSLEngine` internals are left out: cipher suites, key exchange, and
  the contents of records. Each engine follows a script fixed when it is
  created. A receive with nothing waiting stands for blocking forever and
  ends the modelled call with `Blocked`. An engine call with nothing
  scripted answers `CLOSED` with status `NOT_HANDSHAKING` and consumes and
  produces nothing.
- Datagram I/O has no timeouts, loss or reordering. `bind`, `getSession`
  and `defaultSslParameters` of `DtlsDatagramChannel` are left out, as
  they only pass values to the JDK.
- `DtlsDatagramChannel.close` is left out: it loops on the network until
  the peer's `close_notify` arrives, with no bound. The `CLOSED` branch of
  `receive` is modelled.
- Logging, `StringBuilder` output in `DtlsPacketDebug.debug`, and
  `Hex.encodeHexString` are left out. `DtlsPacketDebug.Debug` returns the
  decoded fields instead.
- JSON and CBOR encoding are abstract maps, lists and encoder functions.
  A JSON key that is absent is `None`.
- `HKDF.extract` and the `byte[]`-context `expand` that `Oscore` calls do
  not exist in `HKDF.java`. `Oscore.DeriveKey` and `Oscore.DeriveCommonIv`
  use the modelled `Hkdf.Okm` over the encoded info.
- `JavaStrings.Less`: compares characters by code point, while
  `String.compareTo` compares UTF-16 units. The two agree on the Basic
  Multilingual Plane. Java string lengths are counted here in characters,
  not UTF-16 units.
- `JavaStrings.EqualsIgnoreCaseUpper`: case folding covers ASCII letters
  only. That suffices for the "DTLS" protocol check.
- `CapabilityController.CreateUri`: returns the relative reference. The
  resolution against the request URI is left out.
- `OAuth2Controller.SetOf`: the message of the `Set.of` exception is
  simplified.
- `DtlsSocket.DtlsDatagramSocket.Handshake`: its `NEED_WRAP` step is the
  corrected `WrapAndSend`, which compacts `netData` after sending. As
  written, the next non-empty datagram overflows the buffer (see
  Findings), so `Send` and `Receive` of this class, which run the
  handshake, also assume the correction.
- `OAuth2Controller.IssueTokens`: a grant type that `Main` does not
  register is treated as unknown, so the `grantTypes` map is a parameter.
  A request without `grant_type` is treated as unknown too, whereas
  `Map.of(...).get(null)` throws `NullPointerException`.
- `CapabilityController.QueryRoundTrip`: ids holding `%`, `#`, spaces or
  other characters that URI parsing escapes or rejects are not covered,
  because `Share` is given the query after decoding.
- `SignedJwtAccessTokenStore.Read`: the `sub` claim is always present in
  the model; a token without it, whose username would be `null`, is not
  represented.
- The request's path info, space id, client IP, groups and time of day
  are parameters of `AbacAccessController.EnforcePolicy`. The rule engine
  behind `checkPermitted` is a policy function; its vote-based semantics
  are `AbacAccessController.After`.
- Header names are matched case-sensitively.
- `CorsFilter.Handle`: the response's headers are a map, so Spark's
  `response.header` (which adds a header) is modelled as setting it;
  repeated headers of one name are not represented.
- Exception messages keep only their fixed prefix: "DTLS error",
  "Error creating DTLS packet", "Unwrap failed", "Wrap failed" and
  "Illegal base64 character" drop the engine result or character code the
  JDK appends.
- The `synchronized` on both DTLS sockets' `receive` is left out: the model
  is single-threaded.
- `UserController.RegisterUser`: the database insert and the response
  status and headers are left out.
- `UserController.ProcessClientCertificateAuth`: the PEM and URL decoding
  of the certificate are left out. The model takes the parsed list of
  subject alternative names.

## Findings

| source | as written | input that shows it | evidently intended | confidence | as-written member | corrected member |
|---|---|---|---|---|---|---|
| natter-api/src/main/java/com/manning/apisecurityinaction/Oscore.java:45 | `sequenceNumber > (1L << 40)` rejects only values above 2^40, and negative values pass | sequence number 2^40: its 5-byte Partial IV is all zero, so the nonce equals that of sequence number 0 for the same id and common IV (and -1 gives that of 2^40 - 1) | accept only 0 ≤ sequenceNumber < 2^40, the 40-bit Partial IV of section 5.2 of RFC 8613, so that nonces are never reused | high; not executed | Oscore.NonceReusedAt2To40 | Oscore.CheckedNonceInjective |
| natter-api/src/main/java/com/manning/apisecurityinaction/DtlsDatagramSocket.java:206-217 | the `NEED_WRAP` case flips `netData` and reads it with `get`, but never compacts it | a `NEED_WRAP` that sends a record, then a `NEED_UNWRAP` that receives any non-empty datagram: the `put` at line 164 finds no room and throws `BufferOverflowException` | compact `netData` after sending, as the unwrap cases do | medium; not executed | DtlsSocket.DtlsDatagramSocket.WrapThenUnwrapAsWritten | DtlsSocket.DtlsDatagramSocket.WrapThenUnwrap |
