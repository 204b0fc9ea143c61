/**
 * `CsrfFilter`: requests that can change state and belong to a session
 * must carry the base64url SHA-256 of the session id in `X-CSRF-Token`;
 * this is the token the cookie store hands out, which a cross-site page
 * cannot read.
 */
module CsrfFilter {
  import opened Common
  import opened Base64url
  import opened Web
  import CookieTokenStore

  const Header := "X-CSRF-Token"

  /** Methods that never change state and pass unchecked. */
  const SafeMethods: set<string> := {"GET", "HEAD", "OPTIONS"}

  /** The body of the 401: `{"error":"Missing X-CSRF-Token header"}`. */
  const MissingHeaderBody := "{\"error\":\"Missing " + Header + " header\"}"

  /**
   * `validate`: the header decodes (with the URL-safe decoder, which throws
   * on anything else) to the hash of the session id; a missing header never
   * matches, since `MessageDigest.isEqual` is false against null.
   */
  function Validate(sha256: Digest, sessionId: string, csrfToken: Option<string>): (r: Result<bool, Exception>)
    ensures r == Ok(true) <==> csrfToken.Some? && DecodeUrl(csrfToken.value) == Some(sha256(sessionId))
    ensures r.Err? <==> csrfToken.Some? && DecodeUrl(csrfToken.value).None?
    ensures r.Err? ==> r.error == IllegalArgument("Illegal base64 character")
  {
    match csrfToken
    case None => Ok(false)
    case Some(t) =>
      match DecodeUrl(t)
      case None => Err(IllegalArgument("Illegal base64 character"))
      case Some(provided) => Ok(provided == sha256(sessionId))
  }

  /**
   * `handle`: safe methods and session-less requests pass; any other
   * request without a valid token is halted with 401.
   */
  function Handle(sha256: Digest, requestMethod: string, session: Option<string>, headers: map<string, string>)
    : (r: Result<Outcome, Exception>)
    ensures requestMethod in SafeMethods || session.None? ==> r == Ok(Continue)
    ensures r == Ok(Continue) <==>
      requestMethod in SafeMethods || session.None? || Validate(sha256, session.value, Lookup(headers, Header)) == Ok(true)
    ensures r.Ok? && r.value.Halt? ==> r.value == Halt(401, MissingHeaderBody)
  {
    if requestMethod in SafeMethods then Ok(Continue)
    else if session.None? then Ok(Continue)
    else
      match Validate(sha256, session.value, Lookup(headers, Header))
      case Err(e) => Err(e)
      case Ok(true) => Ok(Continue)
      case Ok(false) => Ok(Halt(401, MissingHeaderBody))
  }

  /** The token id the cookie store issues for a session is the CSRF token that session accepts. */
  lemma CookieTokenAccepted(sha256: Digest, s: CookieTokenStore.SessionState, tokenId: string)
    requires s.current.Some? && tokenId == EncodeUrl(sha256(s.current.value.id))
    ensures Validate(sha256, s.current.value.id, Some(tokenId)) == Ok(true)
    ensures s.Read(sha256, tokenId) == Ok(s.current.value.token) || s.current.value.token.None?
  {
    RoundTrip(sha256(s.current.value.id));
  }

  /** A token accepted for one session is refused by any session whose id hashes differently. */
  lemma OtherSessionRefused(sha256: Digest, sessionId: string, otherId: string)
    requires sha256(otherId) != sha256(sessionId)
    ensures Validate(sha256, sessionId, Some(EncodeUrl(sha256(otherId)))) == Ok(false)
  {
    RoundTrip(sha256(otherId));
  }
}
