/**
 * `IdTokenValidationFilter`: when a request carries an OpenID Connect ID
 * token in `X-ID-Token` and the user is already authenticated, the token's
 * signature is checked (by the JOSE library, a parameter here) and its
 * claims must name the expected issuer, include the expected audience, name
 * the calling client as authorized party when both are known, and name the
 * authenticated user. The accepted claims are kept on the request.
 */
module IdTokenValidationFilter {
  import opened Common
  import opened Web

  /** The `azp` claim: absent, a string, or a value `getStringClaim` cannot read as one. */
  datatype Azp = NoAzp | StringAzp(value: string) | OtherAzp

  /** The claims of an ID token whose signature checked out; the audience is empty when absent. */
  datatype IdClaims = IdClaims(issuer: Option<string>, audience: seq<string>, azp: Azp, subject: Option<string>)

  /**
   * `DefaultJWTProcessor.process` with the configured algorithm and key
   * source: `None` is a `ParseException`, `BadJOSEException` or `JOSEException`.
   */
  type Processor = string -> Option<IdClaims>

  const IdTokenHeader := "X-ID-Token"

  /** The checks `handle` applies to verified claims, in order: the first that fails names the exception. */
  function CheckClaims(expectedIssuer: string, expectedAudience: string, subject: string, client: Option<string>,
                       claims: IdClaims): (r: Result<IdClaims, Exception>)
    ensures r.Ok? <==>
      claims.issuer == Some(expectedIssuer) && expectedAudience in claims.audience &&
      !claims.azp.OtherAzp? && (client.Some? && claims.azp.StringAzp? ==> claims.azp.value == client.value) &&
      claims.subject == Some(subject)
    ensures r.Ok? ==> r.value == claims
    ensures claims.issuer != Some(expectedIssuer) ==> r == Err(IllegalArgument("invalid id token issuer"))
    ensures claims.issuer == Some(expectedIssuer) && expectedAudience !in claims.audience ==>
      r == Err(IllegalArgument("invalid id token audience"))
    ensures claims.issuer == Some(expectedIssuer) && expectedAudience in claims.audience ==>
      (claims.azp.OtherAzp? ==> r == Err(IllegalArgument("invalid id token"))) &&
      (client.Some? && claims.azp.StringAzp? && claims.azp.value != client.value ==>
        r == Err(IllegalArgument("client is not authorized party"))) &&
      (!claims.azp.OtherAzp? && (client.Some? && claims.azp.StringAzp? ==> claims.azp.value == client.value) &&
       claims.subject != Some(subject) ==>
        r == Err(IllegalArgument("subject does not match id token")))
  {
    if claims.issuer != Some(expectedIssuer) then Err(IllegalArgument("invalid id token issuer"))
    else if expectedAudience !in claims.audience then Err(IllegalArgument("invalid id token audience"))
    else if claims.azp.OtherAzp? then Err(IllegalArgument("invalid id token"))
    else if client.Some? && claims.azp.StringAzp? && claims.azp.value != client.value then
      Err(IllegalArgument("client is not authorized party"))
    else if claims.subject != Some(subject) then Err(IllegalArgument("subject does not match id token"))
    else Ok(claims)
  }

  /**
   * `handle`: the claims to store as `id_token.claims`, or `None` when the
   * filter does nothing because there is no ID token or no authenticated
   * subject. A token the processor rejects is an `IllegalArgumentException`.
   */
  function Handle(process: Processor, expectedIssuer: string, expectedAudience: string, request: Request)
    : (r: Result<Option<IdClaims>, Exception>)
    reads request
    ensures IdTokenHeader !in request.headers || "subject" !in request.attributes ==> r == Ok(None)
    ensures r.Ok? && r.value.Some? <==>
      IdTokenHeader in request.headers && "subject" in request.attributes &&
      process(request.headers[IdTokenHeader]).Some? &&
      CheckClaims(expectedIssuer, expectedAudience, request.attributes["subject"],
                  Lookup(request.attributes, "client_id"), process(request.headers[IdTokenHeader]).value).Ok?
    ensures r.Ok? && r.value.Some? ==> r.value.value == process(request.headers[IdTokenHeader]).value
    ensures (IdTokenHeader in request.headers && "subject" in request.attributes &&
             process(request.headers[IdTokenHeader]).None?) ==>
      r == Err(IllegalArgument("invalid id token"))
    ensures r.Err? ==> r.error.IllegalArgument?
  {
    if IdTokenHeader !in request.headers || "subject" !in request.attributes then Ok(None)
    else
      match process(request.headers[IdTokenHeader])
      case None => Err(IllegalArgument("invalid id token"))
      case Some(claims) =>
        match CheckClaims(expectedIssuer, expectedAudience, request.attributes["subject"],
                          Lookup(request.attributes, "client_id"), claims)
        case Err(e) => Err(e)
        case Ok(c) => Ok(Some(c))
  }

  /**
   * The authorized-party check needs both sides: without a `client_id`
   * attribute any string `azp` (or none) passes, and without an `azp` claim
   * any client passes.
   */
  lemma AzpNeedsBoth(expectedIssuer: string, expectedAudience: string, subject: string, client: Option<string>,
                     claims: IdClaims)
    requires claims.issuer == Some(expectedIssuer) && expectedAudience in claims.audience
    requires claims.subject == Some(subject) && !claims.azp.OtherAzp?
    requires client.None? || claims.azp.NoAzp?
    ensures CheckClaims(expectedIssuer, expectedAudience, subject, client, claims) == Ok(claims)
  {
  }

  /** An ID token issued to another user is refused even when everything else about it is right. */
  lemma OtherSubjectRefused(process: Processor, expectedIssuer: string, expectedAudience: string, request: Request)
    requires IdTokenHeader in request.headers && "subject" in request.attributes
    requires process(request.headers[IdTokenHeader]).Some?
    requires process(request.headers[IdTokenHeader]).value.subject != Some(request.attributes["subject"])
    ensures Handle(process, expectedIssuer, expectedAudience, request).Err?
  {
  }
}
