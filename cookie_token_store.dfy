/**
 * `CookieTokenStore`: tokens kept in the web server's session for the
 * client. The token id handed out is the base64url SHA-256 of the session
 * id, so the id itself (sent in the session cookie) never doubles as the
 * CSRF-resistant token. `create` always starts a fresh session, which
 * defeats session fixation.
 */
module CookieTokenStore {
  import opened Common
  import opened Base64url
  import opened TokenStore

  /**
   * A server-side session: its id and the token attributes `create`
   * stored in it (`None` for a session some other code started, whose
   * `attrs` attribute is null).
   */
  datatype Session = Session(id: string, token: Option<Token>)

  /**
   * The client's session as `request.session(..)` sees it, with the ids of
   * the sessions invalidated so far.
   */
  class SessionState {
    var current: Option<Session>
    var invalidated: seq<string>

    constructor (current: Option<Session>)
      ensures this.current == current && invalidated == []
    {
      this.current := current;
      invalidated := [];
    }

    /** The token id matches the current session: it decodes to the hash of the session id. */
    predicate Matches(sha256: Digest, provided: seq<byte>)
      reads this
    {
      current.Some? && provided == sha256(current.value.id)
    }

    /**
     * `read`: nothing without a session; a token id that is not base64url
     * throws from the decoder; nothing when the hashes differ; a session
     * without token attributes makes `putAll(null)` throw.
     */
    function Read(sha256: Digest, tokenId: string): (r: Result<Option<Token>, Exception>)
      reads this
      ensures current.None? ==> r == Ok(None)
      ensures current.Some? && DecodeUrl(tokenId).None? ==> r == Err(IllegalArgument("Illegal base64 character"))
      ensures r.Ok? && r.value.Some? <==>
        current.Some? && DecodeUrl(tokenId).Some? && Matches(sha256, DecodeUrl(tokenId).value) && current.value.token.Some?
      ensures r.Ok? && r.value.Some? ==> r.value == current.value.token
      ensures r == Err(NullPointer) <==>
        current.Some? && DecodeUrl(tokenId).Some? && Matches(sha256, DecodeUrl(tokenId).value) && current.value.token.None?
    {
      if current.None? then Ok(None)
      else
        match DecodeUrl(tokenId)
        case None => Err(IllegalArgument("Illegal base64 character"))
        case Some(provided) =>
          if provided != sha256(current.value.id) then Ok(None)
          else if current.value.token.None? then Err(NullPointer)
          else Ok(current.value.token)
    }

    /**
     * `create`: invalidates any existing session, starts one with the
     * server-chosen id `newId` holding the token, and returns the hashed id.
     */
    method Create(sha256: Digest, token: Token, newId: string) returns (tokenId: string)
      modifies this
      ensures invalidated == old(invalidated) + (if old(current).Some? then [old(current).value.id] else [])
      ensures current == Some(Session(newId, Some(token)))
      ensures tokenId == EncodeUrl(sha256(newId))
      ensures Read(sha256, tokenId) == Ok(Some(token))
    {
      if current.Some? {
        invalidated := invalidated + [current.value.id];
      }
      current := Some(Session(newId, Some(token)));
      tokenId := EncodeUrl(sha256(newId));
      RoundTrip(sha256(newId));
    }

    /**
     * `revoke`: invalidates the session when the token id matches it; no
     * session or another session's token leaves everything unchanged.
     */
    method Revoke(sha256: Digest, tokenId: string) returns (r: Result<(), Exception>)
      modifies this
      ensures old(current).Some? && DecodeUrl(tokenId).None? <==> r.Err?
      ensures r.Err? ==> r.error == IllegalArgument("Illegal base64 character")
      ensures var revoked := DecodeUrl(tokenId).Some? && old(Matches(sha256, DecodeUrl(tokenId).value));
        if revoked then current == None && invalidated == old(invalidated) + [old(current).value.id]
        else current == old(current) && invalidated == old(invalidated)
      ensures DecodeUrl(tokenId).Some? && old(Matches(sha256, DecodeUrl(tokenId).value)) ==>
        forall t :: Read(sha256, t) == Ok(None)
    {
      if current.None? {
        return Ok(());
      }
      var provided := DecodeUrl(tokenId);
      if provided.None? {
        return Err(IllegalArgument("Illegal base64 character"));
      }
      if provided.value != sha256(current.value.id) {
        return Ok(());
      }
      invalidated := invalidated + [current.value.id];
      current := None;
      r := Ok(());
    }
  }

  /**
   * A token id minted for one session id reads nothing in a session whose
   * id hashes differently: a token outlives neither its session nor a
   * `create` that replaced it.
   */
  lemma OtherSessionRejected(sha256: Digest, s: SessionState, otherId: string)
    requires s.current.Some? && sha256(otherId) != sha256(s.current.value.id)
    ensures s.Read(sha256, EncodeUrl(sha256(otherId))) == Ok(None)
  {
    RoundTrip(sha256(otherId));
  }
}
