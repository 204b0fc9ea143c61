/**
 * `SignedJwtAccessTokenStore`: validates access tokens that an OAuth2
 * authorization server issued as signed JWTs. Signature checking and claim
 * parsing belong to the JOSE library and are a parameter here; the store
 * itself checks the issuer and the audience and turns the claims into a
 * token whose `scope` attribute is the granted scope as one space-separated
 * string. It only reads tokens: `create` and `revoke` are unsupported.
 */
module SignedJwtAccessTokenStore {
  import opened Common
  import opened JavaStrings
  import opened TokenStore

  /** The `scope` claim: absent, a string, a list of strings, or something else. */
  datatype ScopeClaim = NoScope | StringScope(value: string) | ListScope(items: seq<string>) | OtherScope

  /**
   * The claims of a JWT whose signature checked out: `exp` in seconds,
   * `aud` as a list (empty when absent).
   */
  datatype Claims = Claims(issuer: Option<string>, audience: seq<string>, expiry: Option<int>,
                           subject: string, scope: ScopeClaim)

  /**
   * `DefaultJWTProcessor.process` with the key selector for the configured
   * algorithm and key set: `None` is a `ParseException`, `BadJOSEException`
   * or `JOSEException` (bad signature, unknown key, expired token).
   */
  type Processor = string -> Option<Claims>

  /** `create` and `revoke` throw `UnsupportedOperationException`. */
  function Create(token: Token): (r: Result<string, Exception>)
    ensures r == Err(UnsupportedOperation)
  {
    Err(UnsupportedOperation)
  }

  function Revoke(tokenId: string): (r: Result<(), Exception>)
    ensures r == Err(UnsupportedOperation)
  {
    Err(UnsupportedOperation)
  }

  /**
   * The `scope` attribute: a string claim as it is; a list joined with
   * spaces; a missing claim is a null put into a `ConcurrentHashMap`;
   * anything else fails `getStringListClaim` and the read.
   */
  function ScopeAttribute(scope: ScopeClaim): (r: Result<Option<string>, Exception>)
    ensures scope.NoScope? <==> r == Err(NullPointer)
    ensures scope.OtherScope? <==> r == Ok(None)
    ensures scope.StringScope? ==> r == Ok(Some(scope.value))
    ensures scope.ListScope? ==> r == Ok(Some(Join(" ", scope.items)))
    ensures scope.ListScope? && |scope.items| > 0 && (forall k :: 0 <= k < |scope.items| ==> ' ' !in scope.items[k] && scope.items[k] != "") ==>
      r.Ok? && r.value.Some? && Split(r.value.value, ' ') == scope.items
  {
    match scope
    case NoScope => Err(NullPointer)
    case StringScope(s) => Ok(Some(s))
    case ListScope(items) =>
      if |items| > 0 && forall k :: 0 <= k < |items| ==> ' ' !in items[k] && items[k] != "" then
        SplitJoin(items, ' ');
        Ok(Some(Join(" ", items)))
      else Ok(Some(Join(" ", items)))
    case OtherScope => Ok(None)
  }

  /** The claims name this issuer and this audience. */
  predicate Accepted(c: Claims, issuer: string, audience: string) {
    c.issuer == Some(issuer) && audience in c.audience
  }

  /**
   * `read`: empty for a token the processor rejects, from another issuer
   * or not meant for this audience; a missing `exp` makes `toInstant`
   * throw; otherwise the expiry, subject and scope of the claims.
   */
  function Read(process: Processor, issuer: string, audience: string, tokenId: string)
    : (r: Result<Option<Token>, Exception>)
    ensures r.Ok? && r.value.Some? ==> process(tokenId).Some?
    ensures r.Ok? && r.value.Some? ==>
      var c, t := process(tokenId).value, r.value.value;
      c.issuer == Some(issuer) && audience in c.audience && c.expiry.Some? &&
      t.expiry == c.expiry.value && t.username == c.subject &&
      t.attributes.Keys == {"scope"} && ScopeAttribute(c.scope) == Ok(Some(t.attributes["scope"]))
    ensures process(tokenId).None? ==> r == Ok(None)
    ensures process(tokenId).Some? && process(tokenId).value.issuer != Some(issuer) ==> r == Ok(None)
    ensures process(tokenId).Some? && audience !in process(tokenId).value.audience ==> r == Ok(None)
    ensures process(tokenId).Some? && Accepted(process(tokenId).value, issuer, audience) &&
            process(tokenId).value.expiry.None? ==>
      r == Err(NullPointer)
    ensures process(tokenId).Some? && Accepted(process(tokenId).value, issuer, audience) &&
            process(tokenId).value.expiry.Some? && ScopeAttribute(process(tokenId).value.scope).Ok? &&
            ScopeAttribute(process(tokenId).value.scope).value.Some? ==>
      var c := process(tokenId).value;
      r == Ok(Some(Token(c.expiry.value, c.subject, map["scope" := ScopeAttribute(c.scope).value.value])))
    ensures r.Err? ==> r.error == NullPointer
  {
    match process(tokenId)
    case None => Ok(None)
    case Some(c) =>
      if c.issuer != Some(issuer) then Ok(None)
      else if audience !in c.audience then Ok(None)
      else if c.expiry.None? then Err(NullPointer)
      else
        match ScopeAttribute(c.scope)
        case Err(e) => Err(e)
        case Ok(None) => Ok(None)
        case Ok(Some(scope)) => Ok(Some(Token(c.expiry.value, c.subject, map["scope" := scope])))
  }

  /**
   * A token whose claims pass every check reads as exactly those claims:
   * a string scope as it is, a list scope joined by spaces; a list of
   * non-empty words without spaces survives the trip.
   */
  lemma ReadAccepts(process: Processor, issuer: string, audience: string, tokenId: string, c: Claims)
    requires process(tokenId) == Some(c) && Accepted(c, issuer, audience) && c.expiry.Some?
    ensures c.scope.StringScope? ==>
      Read(process, issuer, audience, tokenId) == Ok(Some(Token(c.expiry.value, c.subject, map["scope" := c.scope.value])))
    ensures c.scope.ListScope? ==>
      Read(process, issuer, audience, tokenId) ==
        Ok(Some(Token(c.expiry.value, c.subject, map["scope" := Join(" ", c.scope.items)])))
    ensures c.scope.ListScope? && |c.scope.items| > 0 &&
            (forall k :: 0 <= k < |c.scope.items| ==> ' ' !in c.scope.items[k] && c.scope.items[k] != "") ==>
      Split(Read(process, issuer, audience, tokenId).value.value.attributes["scope"], ' ') == c.scope.items
  {
    if c.scope.ListScope? && |c.scope.items| > 0 &&
       (forall k :: 0 <= k < |c.scope.items| ==> ' ' !in c.scope.items[k] && c.scope.items[k] != "") {
      SplitJoin(c.scope.items, ' ');
    }
  }
}
