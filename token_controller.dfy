/**
 * `TokenController`: logging in issues a token for the authenticated user
 * with the requested scope and role; each request's token (from the
 * `X-CSRF-Token` header) is read back and copied into the request; routes
 * can demand a scope; logging out revokes the bearer token.
 */
module TokenController {
  import opened Common
  import opened JavaStrings
  import opened TokenStore
  import opened Web

  /** Tokens from `login` are valid for ten minutes. */
  const LoginValidity := 600

  /** The wrapped store's `read`, which may throw on a malformed token id. */
  type StoreRead = string -> Result<Option<Token>, Exception>

  /**
   * `login`: the token the store is asked to create: the subject, an
   * expiry ten minutes from `now`, and the `scope` and `role` query
   * parameters, each only when present.
   */
  function LoginToken(subject: string, now: int, queryParams: map<string, string>): (t: Token)
    ensures t.username == subject && t.expiry == now + LoginValidity
    ensures t.attributes.Keys == queryParams.Keys * {"scope", "role"}
    ensures forall k :: k in t.attributes ==> t.attributes[k] == queryParams[k]
  {
    var scope := if "scope" in queryParams then map["scope" := queryParams["scope"]] else map[];
    var role := if "role" in queryParams then map["role" := queryParams["role"]] else map[];
    Token(now + LoginValidity, subject, scope + role)
  }

  const ExpiredChallenge := "Bearer error=\"invalid_token\",error_description=\"Expired\""

  /**
   * `validateToken`: without the header, or when the store has no such
   * token, nothing happens; a token that has not expired (now strictly
   * before its expiry) sets the subject and then copies every attribute
   * over the request's; an expired one halts with 401 and a challenge.
   */
  method ValidateToken(read: StoreRead, now: int, request: Request, response: Response)
    returns (r: Result<Outcome, Exception>)
    modifies request, response
    ensures "X-CSRF-Token" !in request.headers ==>
      r == Ok(Continue) && request.attributes == old(request.attributes) && response.headers == old(response.headers)
    ensures "X-CSRF-Token" in request.headers && read(request.headers["X-CSRF-Token"]).Err? ==>
      r == Err(read(request.headers["X-CSRF-Token"]).error) &&
      request.attributes == old(request.attributes) && response.headers == old(response.headers)
    ensures "X-CSRF-Token" in request.headers && read(request.headers["X-CSRF-Token"]) == Ok(None) ==>
      r == Ok(Continue) && request.attributes == old(request.attributes) && response.headers == old(response.headers)
    ensures ("X-CSRF-Token" in request.headers && read(request.headers["X-CSRF-Token"]).Ok? &&
             read(request.headers["X-CSRF-Token"]).value.Some?) ==>
      var token := read(request.headers["X-CSRF-Token"]).value.value;
      (now < token.expiry ==>
        r == Ok(Continue) && response.headers == old(response.headers) &&
        request.attributes == old(request.attributes)["subject" := token.username] + token.attributes) &&
      (now >= token.expiry ==>
        r == Ok(Halt(401, "")) && request.attributes == old(request.attributes) &&
        response.headers == old(response.headers)["WWW-Authenticate" := ExpiredChallenge])
  {
    var tokenId := Lookup(request.headers, "X-CSRF-Token");
    if tokenId.None? {
      return Ok(Continue);
    }
    var found := read(tokenId.value);
    if found.Err? {
      return Err(found.error);
    }
    if found.value.None? {
      return Ok(Continue);
    }
    var token := found.value.value;
    if now < token.expiry {
      request.attributes := request.attributes["subject" := token.username];
      request.attributes := request.attributes + token.attributes;
      r := Ok(Continue);
    } else {
      response.headers := response.headers["WWW-Authenticate" := ExpiredChallenge];
      r := Ok(Halt(401, ""));
    }
  }

  /** The token carries the scope: it is one of the space-separated words of the token's scope. */
  predicate HasScope(tokenScope: string, requiredScope: string) {
    requiredScope in Split(tokenScope, ' ')
  }

  function InsufficientScope(requiredScope: string): string {
    "Bearer error=\"insufficient_scope\",scope=\"" + requiredScope + "\""
  }

  /**
   * The filter `requireScope(method, scope)` returns: other methods and
   * requests without a scope pass; a scope that does not list the required
   * one exactly halts with 403 and an `insufficient_scope` challenge.
   */
  method RequireScope(routeMethod: string, requiredScope: string, request: Request, response: Response)
    returns (outcome: Outcome)
    modifies response
    ensures outcome == Continue <==>
      routeMethod != request.requestMethod || "scope" !in request.attributes ||
      HasScope(request.attributes["scope"], requiredScope)
    ensures outcome == Continue ==> response.headers == old(response.headers)
    ensures outcome != Continue ==>
      outcome == Halt(403, "") &&
      response.headers == old(response.headers)["WWW-Authenticate" := InsufficientScope(requiredScope)]
  {
    if routeMethod != request.requestMethod {
      return Continue;
    }
    var tokenScope := Lookup(request.attributes, "scope");
    if tokenScope.None? {
      return Continue;
    }
    if !HasScope(tokenScope.value, requiredScope) {
      response.headers := response.headers["WWW-Authenticate" := InsufficientScope(requiredScope)];
      return Halt(403, "");
    }
    outcome := Continue;
  }

  /**
   * A scope granted as a list of words joined by spaces grants each of
   * the words, and nothing but whole words: a part of a word is refused.
   */
  lemma JoinedScopeGrants(scopes: seq<string>, required: string)
    requires |scopes| >= 1 && forall k :: 0 <= k < |scopes| ==> ' ' !in scopes[k] && scopes[k] != ""
    ensures HasScope(Join(" ", scopes), required) <==> required in scopes
  {
    SplitJoin(scopes, ' ');
  }

  const BearerPrefix := "Bearer "

  /**
   * `logout`: the `Authorization` header must start with `Bearer `; the
   * token id to revoke is the rest of it.
   */
  function Logout(authorization: Option<string>): (r: Result<string, Exception>)
    ensures r.Err? <==> authorization.None? || !StartsWith(authorization.value, BearerPrefix)
    ensures r.Err? ==> r.error == IllegalArgument("missing token header")
    ensures r.Ok? ==> authorization.value == BearerPrefix + r.value
  {
    if authorization.None? || !StartsWith(authorization.value, BearerPrefix) then
      Err(IllegalArgument("missing token header"))
    else
      var h := authorization.value;
      assert h == h[..7] + h[7..];
      Ok(h[7..])
  }

  /** The token id sent after `Bearer ` is the one revoked. */
  lemma LogoutBearer(tokenId: string)
    ensures Logout(Some(BearerPrefix + tokenId)) == Ok(tokenId)
  {
    assert (BearerPrefix + tokenId)[..|BearerPrefix|] == BearerPrefix;
    assert (BearerPrefix + tokenId)[7..] == tokenId;
  }
}
