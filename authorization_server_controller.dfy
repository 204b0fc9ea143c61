/**
 * `AuthorizationServerController`: a token endpoint for the OAuth2
 * resource owner password credentials grant (section 4.3 of RFC 6749).
 * The client authenticates with its id and a secret whose SHA-256 must
 * match the configured hash; the user with a name and password; the
 * requested scope is cut down to the client's allowed scope, sorted, and
 * issued in a one-hour access token.
 */
module AuthorizationServerController {
  import opened Common
  import opened JavaStrings
  import opened Base64url
  import opened TokenStore
  import UserController

  /**
   * A client's entry in the JSON client configuration: the standard-base64
   * SHA-256 of its secret and its allowed scope, each `None` when the
   * entry lacks the key.
   */
  datatype ClientConfig = ClientConfig(secretHash: Option<string>, allowedScope: Option<seq<string>>)

  /** The JSON answer for an issued token. */
  datatype AccessTokenResponse = AccessTokenResponse(accessToken: string, tokenType: string, expiresIn: int, scope: string)

  /** Access tokens are valid for one hour. */
  const Validity := 3600

  /** `value == null || value.isBlank()` for a form parameter. */
  predicate Missing(params: map<string, string>, name: string) {
    name !in params || IsBlank(params[name])
  }

  /**
   * `authenticateClient`: a missing or blank id or secret, an id the
   * configuration does not know, or a secret whose hash differs, is
   * `invalid_client`; a configured hash that is absent or not base64
   * throws from the JSON reader or the decoder.
   */
  function AuthenticateClient(sha256: Digest, clients: map<string, ClientConfig>, params: map<string, string>)
    : (r: Result<ClientConfig, Exception>)
    ensures Missing(params, "client_id") || Missing(params, "client_secret") ==> r == Err(IllegalArgument("invalid_client"))
    ensures r.Ok? <==>
      !Missing(params, "client_id") && !Missing(params, "client_secret") && params["client_id"] in clients &&
      clients[params["client_id"]].secretHash.Some? &&
      Decode(clients[params["client_id"]].secretHash.value, false) == Some(sha256(params["client_secret"]))
    ensures r.Ok? ==> r.value == clients[params["client_id"]]
    ensures !Missing(params, "client_id") && !Missing(params, "client_secret") && params["client_id"] !in clients ==>
      r == Err(IllegalArgument("invalid_client"))
    ensures !Missing(params, "client_id") && !Missing(params, "client_secret") && params["client_id"] in clients ==>
      var hash := clients[params["client_id"]].secretHash;
      (hash.None? ==> r == Err(JsonFailure)) &&
      (hash.Some? && Decode(hash.value, false).None? ==> r == Err(IllegalArgument("Illegal base64 character"))) &&
      (hash.Some? && Decode(hash.value, false).Some? && Decode(hash.value, false).value != sha256(params["client_secret"]) ==>
        r == Err(IllegalArgument("invalid_client")))
  {
    if Missing(params, "client_id") || Missing(params, "client_secret") then Err(IllegalArgument("invalid_client"))
    else if params["client_id"] !in clients then Err(IllegalArgument("invalid_client"))
    else
      var client := clients[params["client_id"]];
      match client.secretHash
      case None => Err(JsonFailure)
      case Some(h) =>
        match Decode(h, false)
        case None => Err(IllegalArgument("Illegal base64 character"))
        case Some(expected) =>
          if expected != sha256(params["client_secret"]) then Err(IllegalArgument("invalid_client"))
          else Ok(client)
  }

  /**
   * `validateScope`: the requested words the client is allowed, each once,
   * in `compareTo` order (the `TreeSet`), joined by single spaces. Words
   * not allowed are dropped silently. A client entry without
   * `allowed_scope` throws from the JSON reader.
   */
  method ValidateScope(scope: string, client: ClientConfig) returns (r: Result<string, Exception>)
    ensures client.allowedScope.None? <==> r == Err(JsonFailure)
    ensures r.Ok? <==> client.allowedScope.Some?
    ensures r.Ok? ==>
      exists granted :: r.value == Join(" ", granted) && StrictlySorted(granted) &&
        forall w :: w in granted <==> w in Split(scope, ' ') && w in client.allowedScope.value
  {
    if client.allowedScope.None? {
      return Err(JsonFailure);
    }
    var allowedScope := client.allowedScope.value;
    var requestScope := Split(scope, ' ');
    var resultScope: seq<string> := [];
    var i := 0;
    while i < |requestScope|
      invariant 0 <= i <= |requestScope|
      invariant StrictlySorted(resultScope)
      invariant forall w :: w in resultScope <==> w in requestScope[..i] && w in allowedScope
    {
      var requested := requestScope[i];
      if requested in allowedScope {
        resultScope := Insert(resultScope, requested);
      }
      assert requestScope[..i + 1] == requestScope[..i] + [requested];
      i := i + 1;
    }
    assert requestScope[..i] == requestScope;
    r := Ok(Join(" ", resultScope));
  }

  /** Two strictly sorted lists of the same words are the same list: the granted scope is determined by its words. */
  lemma {:induction false} SortedUnique(xs: seq<string>, ys: seq<string>)
    requires StrictlySorted(xs) && StrictlySorted(ys)
    requires forall w :: w in xs <==> w in ys
    ensures xs == ys
    decreases |xs|
  {
    assert xs == [] <==> ys == [] by {
      if xs != [] { assert xs[0] in xs; }
      if ys != [] { assert ys[0] in ys; }
    }
    if xs != [] {
      assert xs[0] in xs && ys[0] in ys;
      if xs[0] != ys[0] {
        assert ys[0] in xs && xs[0] in ys;
        var i :| 0 < i < |xs| && xs[i] == ys[0];
        var j :| 0 < j < |ys| && ys[j] == xs[0];
        LessAsymmetric(xs[0], xs[i]);
        assert false;
      }
      forall w ensures w in xs[1..] <==> w in ys[1..] {
        if w in xs[1..] {
          var j :| 1 <= j < |xs| && xs[j] == w;
          LessIrreflexive(w);
          assert w != xs[0] && w in ys;
        }
        if w in ys[1..] {
          var j :| 1 <= j < |ys| && ys[j] == w;
          LessIrreflexive(w);
          assert w != ys[0] && w in xs;
        }
      }
      SortedUnique(xs[1..], ys[1..]);
      assert xs == [xs[0]] + xs[1..] && ys == [ys[0]] + ys[1..];
    }
  }

  /** When some word is granted, splitting the validated scope at spaces gives back the granted words in order. */
  lemma GrantedWords(granted: seq<string>)
    requires |granted| >= 1 && forall k :: 0 <= k < |granted| ==> ' ' !in granted[k] && granted[k] != ""
    ensures Split(Join(" ", granted), ' ') == granted
  {
    SplitJoin(granted, ' ');
  }

  /** The request asks for the resource owner password credentials grant. */
  predicate PasswordGrant(params: map<string, string>) {
    "grant_type" in params && params["grant_type"] == "password"
  }

  /** Scope, user name and password are present and not blank, and the user name is valid. */
  predicate WellFormedRequest(params: map<string, string>) {
    !Missing(params, "scope") && !Missing(params, "username") && !Missing(params, "password") &&
    UserController.ValidUsername(params["username"])
  }

  /**
   * `issueAccessToken`: the grant type must be `password`; the client
   * must authenticate; scope, user name and password must be present and
   * not blank and the user name valid (`invalid_request`); the scope is
   * validated; the password is checked against the stored hash
   * (`invalid_grant`); then a one-hour token carries the validated scope.
   */
  method IssueAccessToken(sha256: Digest, clients: map<string, ClientConfig>, checkPassword: (string, string) -> bool,
                          create: Token -> string, now: int, params: map<string, string>)
    returns (r: Result<AccessTokenResponse, Exception>)
    ensures !PasswordGrant(params) <==> r == Err(IllegalArgument("unsupported_grant_type"))
    ensures PasswordGrant(params) && AuthenticateClient(sha256, clients, params).Err? ==>
      r == Err(AuthenticateClient(sha256, clients, params).error)
    ensures r.Ok? ==>
      AuthenticateClient(sha256, clients, params).Ok? && WellFormedRequest(params) &&
      checkPassword(params["username"], params["password"])
    ensures r.Ok? ==>
      var client := AuthenticateClient(sha256, clients, params).value;
      client.allowedScope.Some? &&
      r.value.tokenType == "Bearer" && r.value.expiresIn == Validity &&
      r.value.accessToken == create(Token(now + Validity, params["username"], map["scope" := r.value.scope])) &&
      exists granted :: r.value.scope == Join(" ", granted) && StrictlySorted(granted) &&
        forall w :: w in granted <==> w in Split(params["scope"], ' ') && w in client.allowedScope.value
    ensures PasswordGrant(params) && AuthenticateClient(sha256, clients, params).Ok? && !WellFormedRequest(params) ==>
      r == Err(IllegalArgument("invalid_request"))
    ensures PasswordGrant(params) && AuthenticateClient(sha256, clients, params).Ok? && WellFormedRequest(params) ==>
      var client := AuthenticateClient(sha256, clients, params).value;
      (client.allowedScope.None? ==> r == Err(JsonFailure)) &&
      (client.allowedScope.Some? ==>
        (r.Ok? <==> checkPassword(params["username"], params["password"])) &&
        (r.Err? ==> r == Err(IllegalArgument("invalid_grant"))))
  {
    if !PasswordGrant(params) {
      return Err(IllegalArgument("unsupported_grant_type"));
    }
    var client := AuthenticateClient(sha256, clients, params);
    if client.Err? {
      return Err(client.error);
    }
    if Missing(params, "scope") || Missing(params, "username") || Missing(params, "password") {
      return Err(IllegalArgument("invalid_request"));
    }
    var username, password := params["username"], params["password"];
    if !UserController.ValidUsername(username) {
      return Err(IllegalArgument("invalid_request"));
    }
    var scope := ValidateScope(params["scope"], client.value);
    if scope.Err? {
      return Err(scope.error);
    }
    if !checkPassword(username, password) {
      return Err(IllegalArgument("invalid_grant"));
    }
    var token := Token(now + Validity, username, map["scope" := scope.value]);
    r := Ok(AccessTokenResponse(create(token), "Bearer", Validity, scope.value));
  }
}
