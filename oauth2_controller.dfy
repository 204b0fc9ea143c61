/**
 * `OAuth2Controller`: the token endpoint of an OAuth2 authorization
 * server (section 3.2 of RFC 6749). It checks the grant type, the
 * syntax of the requested scope (section 3.3 of RFC 6749) and the client's
 * allowed scope, lets the grant type decide, and issues a ten-minute access
 * token; and a filter that demands a scope of bearer tokens.
 */
module OAuth2Controller {
  import opened Common
  import opened JavaStrings
  import opened TokenStore
  import opened Web

  /** `Client`: a registered client and the scope it may ask for. */
  datatype Client = Client(clientId: string, displayName: string, allowedScope: set<string>, defaultScope: string)

  /**
   * `AccessDecision`: a grant allowed for a resource owner with a scope (in
   * the order the set iterates it), or denied.
   */
  datatype AccessDecision = Allowed(resourceOwner: string, scope: seq<string>) | Denied

  /**
   * `GrantType.validate`, given the client (if known) and the requested
   * scope: a decision, or the exception the grant type throws (the
   * resource-owner password grant rejects a request that is not a form).
   */
  type GrantType = (Option<Client>, set<string>) -> Result<AccessDecision, Exception>

  /** The JSON answer: an error with its status, or the issued token. */
  datatype TokenResponse =
    | ErrorResponse(status: int, error: string, description: Option<string>)
    | Issued(token: Token, accessToken: string, tokenType: string, expiresIn: int, scope: string)

  /** Access tokens are valid for ten minutes. */
  const Validity := 600

  /** `[\x21\x23-\x5B\x5D-\x7E]`: printable ASCII except space, `"` and `\`. */
  predicate ScopeChar(c: char) {
    c == '\U{21}' || ('\U{23}' <= c <= '\U{5B}') || ('\U{5D}' <= c <= '\U{7E}')
  }

  /** `s.matches("^[\\x21\\x23-\\x5B\\x5D-\\x7E]*$")`; the empty word matches too. */
  predicate ScopeToken(s: string) {
    forall k :: 0 <= k < |s| ==> ScopeChar(s[k])
  }

  /** Every word of the scope set is a scope token. */
  predicate ScopeTokens(scope: set<string>) {
    forall s :: s in scope ==> ScopeToken(s)
  }

  /** The list holds some word twice. */
  predicate HasDuplicate(items: seq<string>) {
    exists i, j :: 0 <= i < j < |items| && items[i] == items[j]
  }

  /** `Set.of(items)`: the set of the words; a repeated word makes it throw. */
  function SetOf(items: seq<string>): (r: Result<set<string>, Exception>)
    ensures r.Err? <==> HasDuplicate(items)
    ensures r.Ok? ==> r.value == set k | 0 <= k < |items| :: items[k]
    ensures r.Err? ==> r.error == IllegalArgument("duplicate element")
  {
    if HasDuplicate(items) then Err(IllegalArgument("duplicate element"))
    else Ok(set k | 0 <= k < |items| :: items[k])
  }

  /** `queryParamOrDefault("scope", "").split(" ")`: the requested scope words. */
  function RequestedWords(queryParams: map<string, string>): seq<string> {
    Split(if "scope" in queryParams then queryParams["scope"] else "", ' ')
  }

  /** `clients.get(request.queryParams("client_id"))`. */
  function ClientOf(clients: map<string, Client>, queryParams: map<string, string>): Option<Client> {
    if "client_id" in queryParams && queryParams["client_id"] in clients then Some(clients[queryParams["client_id"]])
    else None
  }

  /** `grantTypes.get(request.queryParams("grant_type")) != null`. */
  predicate KnownGrantType(grantTypes: map<string, GrantType>, queryParams: map<string, string>) {
    "grant_type" in queryParams && queryParams["grant_type"] in grantTypes
  }

  /**
   * `issueTokens`: an unknown grant type is refused first; then the scope
   * (default empty) is split at spaces into a set, each word of which must
   * be a scope token; a known client must be allowed every word (an
   * unknown one is not checked); the grant type decides; an allowed grant
   * gets a token for its resource owner with its scope joined by spaces.
   */
  function IssueTokens(grantTypes: map<string, GrantType>, clients: map<string, Client>, create: Token -> string,
                       now: int, queryParams: map<string, string>): (r: Result<TokenResponse, Exception>)
    ensures !KnownGrantType(grantTypes, queryParams) ==> r == Ok(ErrorResponse(400, "unsupported_grant_type", None))
    ensures KnownGrantType(grantTypes, queryParams) && HasDuplicate(RequestedWords(queryParams)) ==>
      r == Err(IllegalArgument("duplicate element"))
    ensures KnownGrantType(grantTypes, queryParams) && !HasDuplicate(RequestedWords(queryParams)) ==>
      var scope := SetOf(RequestedWords(queryParams)).value;
      var client := ClientOf(clients, queryParams);
      (!ScopeTokens(scope) ==> r == Ok(ErrorResponse(400, "invalid_scope", Some("illegal character in scope")))) &&
      (ScopeTokens(scope) && client.Some? && !(scope <= client.value.allowedScope) ==>
        r == Ok(ErrorResponse(403, "access_denied", None))) &&
      (ScopeTokens(scope) && (client.Some? ==> scope <= client.value.allowedScope) ==>
        match grantTypes[queryParams["grant_type"]](client, scope)
        case Err(e) => r == Err(e)
        case Ok(Denied) => r == Ok(ErrorResponse(400, "invalid_scope", None))
        case Ok(Allowed(owner, granted)) =>
          r.Ok? && r.value.Issued? && r.value.token.username == owner && r.value.scope == Join(" ", granted))
    ensures r.Ok? && r.value.Issued? ==>
      var t := r.value;
      t.tokenType == "Bearer" && t.expiresIn == Validity && t.token.expiry == now + Validity &&
      t.accessToken == create(t.token) && t.token.attributes == map["scope" := t.scope]
  {
    if !KnownGrantType(grantTypes, queryParams) then
      Ok(ErrorResponse(400, "unsupported_grant_type", None))
    else
      var grantType := grantTypes[queryParams["grant_type"]];
      var words := RequestedWords(queryParams);
      match SetOf(words)
      case Err(e) => Err(e)
      case Ok(scope) =>
        if !ScopeTokens(scope) then
          Ok(ErrorResponse(400, "invalid_scope", Some("illegal character in scope")))
        else
          var client := ClientOf(clients, queryParams);
          if client.Some? && !(scope <= client.value.allowedScope) then
            Ok(ErrorResponse(403, "access_denied", None))
          else
            match grantType(client, scope)
            case Err(e) => Err(e)
            case Ok(Denied) => Ok(ErrorResponse(400, "invalid_scope", None))
            case Ok(Allowed(owner, granted)) =>
              var joined := Join(" ", granted);
              var token := Token(now + Validity, owner, map["scope" := joined]);
              Ok(Issued(token, create(token), "Bearer", Validity, joined))
  }

  /** A scope naming a word twice makes `Set.of` throw before any other scope check. */
  lemma RepeatedScopeThrows(grantTypes: map<string, GrantType>, clients: map<string, Client>, create: Token -> string,
                            now: int, grantType: string, word: string)
    requires grantType in grantTypes && word != "" && ' ' !in word
    ensures IssueTokens(grantTypes, clients, create, now, map["grant_type" := grantType, "scope" := word + " " + word]).Err?
  {
    var q := map["grant_type" := grantType, "scope" := word + " " + word];
    SplitJoin([word, word], ' ');
    assert Join(" ", [word, word]) == word + " " + word;
    assert RequestedWords(q) == [word, word];
  }

  function InsufficientScope(requiredScope: string): string {
    "Bearer error=\"insufficient_scope\",scope=\"" + requiredScope + "\""
  }

  /**
   * The filter `requireScope(method, scope)` returns: other methods and
   * requests without a scope pass; otherwise the scope is split at spaces
   * into a set (a repeated word makes `Set.of` throw), and one that does not
   * hold the required word halts with 401 and an `insufficient_scope`
   * challenge (section 3.1 of RFC 6750).
   */
  method RequireScope(routeMethod: string, requiredScope: string, request: Request, response: Response)
    returns (r: Result<Outcome, Exception>)
    modifies response
    ensures request.requestMethod != routeMethod || "scope" !in request.attributes ==>
      r == Ok(Continue) && response.headers == old(response.headers)
    ensures request.requestMethod == routeMethod && "scope" in request.attributes ==>
      var words := Split(request.attributes["scope"], ' ');
      (HasDuplicate(words) ==> r.Err? && response.headers == old(response.headers)) &&
      (!HasDuplicate(words) && requiredScope in words ==> r == Ok(Continue) && response.headers == old(response.headers)) &&
      (!HasDuplicate(words) && requiredScope !in words ==>
        r == Ok(Halt(401, "")) &&
        response.headers == old(response.headers)["WWW-Authenticate" := InsufficientScope(requiredScope)])
  {
    if request.requestMethod != routeMethod {
      return Ok(Continue);
    }
    var requestScope := Lookup(request.attributes, "scope");
    if requestScope.None? {
      return Ok(Continue);
    }
    var scopeSet := SetOf(Split(requestScope.value, ' '));
    if scopeSet.Err? {
      return Err(scopeSet.error);
    }
    if requiredScope !in scopeSet.value {
      response.headers := response.headers["WWW-Authenticate" := InsufficientScope(requiredScope)];
      return Ok(Halt(401, ""));
    }
    r := Ok(Continue);
  }

  /** The scope an issued token carries grants, at this filter, exactly the words the grant type allowed. */
  lemma IssuedScopeGrants(granted: seq<string>, required: string)
    requires |granted| >= 1 && forall k :: 0 <= k < |granted| ==> ' ' !in granted[k] && granted[k] != ""
    ensures Split(Join(" ", granted), ' ') == granted
    ensures required in Split(Join(" ", granted), ' ') <==> required in granted
  {
    SplitJoin(granted, ' ');
  }
}
