/**
 * `CapabilityController`: capability URIs. A capability is a token whose
 * `path` and `perms` attributes say which resource it opens and with which
 * permission letters; its id travels in the `access_token` query parameter.
 * `share` derives a new capability for another user that keeps the path
 * and the expiry and may only narrow the permissions.
 */
module CapabilityController {
  import opened Common
  import opened JavaStrings
  import opened TokenStore
  import opened Web

  /** The secure token store's `read`, which may throw. */
  type StoreRead = string -> Result<Option<Token>, Exception>

  /** The query of a capability URI for a token id. */
  function Query(tokenId: string): string {
    "access_token=" + tokenId
  }

  /**
   * `createUri`: a token for the caller that expires after `expiryDuration`
   * and carries the path and permissions; the URI is the path with the new
   * token's id as `access_token`.
   */
  function CreateUri(create: Token -> string, subject: string, now: int, path: string, perms: string,
                     expiryDuration: int): (r: (Token, string))
    ensures r.0.expiry == now + expiryDuration && r.0.username == subject
    ensures r.0.attributes == map["path" := path, "perms" := perms]
    ensures r.1 == path + "?" + Query(create(r.0))
  {
    var token := Token(now + expiryDuration, subject, map["path" := path, "perms" := perms]);
    (token, path + "?" + Query(create(token)))
  }

  /**
   * `lookupPermissions`: with an `access_token` query parameter naming a
   * token the store holds for the authenticated subject and for the
   * requested path, the token's permissions become the request's `perms`
   * attribute (a token without `perms` removes the attribute). Otherwise
   * nothing changes.
   */
  method LookupPermissions(read: StoreRead, pathInfo: string, request: Request) returns (r: Result<(), Exception>)
    modifies request
    ensures "access_token" in request.queryParams && read(request.queryParams["access_token"]).Err? <==> r.Err?
    ensures r.Err? ==> r.error == read(request.queryParams["access_token"]).error
    ensures var granted := "access_token" in request.queryParams &&
              read(request.queryParams["access_token"]).Ok? &&
              read(request.queryParams["access_token"]).value.Some? &&
              var token := read(request.queryParams["access_token"]).value.value;
              Lookup(old(request.attributes), "subject") == Some(token.username) &&
              Lookup(token.attributes, "path") == Some(pathInfo);
      if !granted then request.attributes == old(request.attributes)
      else
        var token := read(request.queryParams["access_token"]).value.value;
        if "perms" in token.attributes then request.attributes == old(request.attributes)["perms" := token.attributes["perms"]]
        else request.attributes == old(request.attributes) - {"perms"}
  {
    if "access_token" !in request.queryParams {
      return Ok(());
    }
    var found := read(request.queryParams["access_token"]);
    if found.Err? {
      return Err(found.error);
    }
    r := Ok(());
    if found.value.None? {
      return;
    }
    var token := found.value.value;
    if Lookup(request.attributes, "subject") != Some(token.username) {
      return;
    }
    if Lookup(token.attributes, "path") == Some(pathInfo) {
      if "perms" in token.attributes {
        request.attributes := request.attributes["perms" := token.attributes["perms"]];
      } else {
        request.attributes := request.attributes - {"perms"};
      }
    }
  }

  /** The token id `share` takes from a URI query: everything after its first `=`, or all of it without one. */
  function QueryTokenId(query: string): (tokenId: string)
    ensures '=' !in query ==> tokenId == query
    ensures '=' in query ==> exists name :: query == name + "=" + tokenId && '=' !in name
  {
    var i := IndexOf(query, '=');
    if i == -1 then query
    else
      assert query == query[..i] + "=" + query[i + 1..];
      query[i + 1..]
  }

  /**
   * The query text a capability URI is built from yields back the id it was
   * built with; URI encoding and decoding of that text is not modelled.
   */
  lemma QueryRoundTrip(tokenId: string)
    ensures QueryTokenId(Query(tokenId)) == tokenId
  {
    assert IndexOf(Query(tokenId), '=') == 12 by {
      assert Query(tokenId)[12] == '=';
      assert forall k :: 0 <= k < 12 ==> Query(tokenId)[k] == "access_token"[k];
    }
  }

  /** How `share` ends: `halt(403)`, or the JSON answer with the new capability URI. */
  datatype ShareResult = Forbidden | Shared(token: Token, uri: string)

  /**
   * `share`, given the path and query of the capability URI in the JSON
   * body and its optional `perms` and `user` fields: the token must exist
   * (else `NoSuchElementException`) and be for this path; the shared
   * permissions default to the token's and must occur in them as a
   * substring; the new token keeps the expiry and path for the new user.
   */
  function Share(read: StoreRead, create: Token -> string, capPath: string, capQuery: Option<string>,
                 perms: Option<string>, user: Option<string>): (r: Result<ShareResult, Exception>)
    ensures capQuery.None? ==> r == Err(NullPointer)
    ensures r.Ok? ==>
      capQuery.Some? && read(QueryTokenId(capQuery.value)).Ok? && read(QueryTokenId(capQuery.value)).value.Some?
    ensures r.Ok? ==> var token := read(QueryTokenId(capQuery.value)).value.value;
      Lookup(token.attributes, "path") == Some(capPath) && "perms" in token.attributes
    ensures r.Ok? && r.value.Shared? ==>
      var token := read(QueryTokenId(capQuery.value)).value.value;
      var granted := if perms.Some? then perms.value else token.attributes["perms"];
      Contains(token.attributes["perms"], granted) && user.Some? &&
      r.value.token == Token(token.expiry, user.value, map["path" := capPath, "perms" := granted]) &&
      r.value.uri == capPath + "?" + Query(create(r.value.token))
    ensures r == Ok(Forbidden) <==>
      r.Ok? && var token := read(QueryTokenId(capQuery.value)).value.value;
      perms.Some? && !Contains(token.attributes["perms"], perms.value)
    ensures capQuery.Some? ==>
      var found := read(QueryTokenId(capQuery.value));
      (found.Err? ==> r == Err(found.error)) &&
      (found == Ok(None) ==> r == Err(NoSuchElement)) &&
      (found.Ok? && found.value.Some? ==>
        var token := found.value.value;
        (Lookup(token.attributes, "path") != Some(capPath) ==> r == Err(IllegalArgument("incorrect path"))) &&
        (Lookup(token.attributes, "path") == Some(capPath) && "perms" !in token.attributes ==> r == Err(NullPointer)) &&
        (Lookup(token.attributes, "path") == Some(capPath) && "perms" in token.attributes ==>
          var granted := if perms.Some? then perms.value else token.attributes["perms"];
          (!Contains(token.attributes["perms"], granted) ==> r == Ok(Forbidden)) &&
          (Contains(token.attributes["perms"], granted) && user.None? ==> r == Err(JsonFailure)) &&
          (Contains(token.attributes["perms"], granted) && user.Some? ==> r.Ok? && r.value.Shared?)))
  {
    if capQuery.None? then Err(NullPointer)
    else
      match read(QueryTokenId(capQuery.value))
      case Err(e) => Err(e)
      case Ok(None) => Err(NoSuchElement)
      case Ok(Some(token)) =>
        if Lookup(token.attributes, "path") != Some(capPath) then Err(IllegalArgument("incorrect path"))
        else if "perms" !in token.attributes then Err(NullPointer)
        else
          var tokenPerms := token.attributes["perms"];
          var granted := if perms.Some? then perms.value else tokenPerms;
          if !Contains(tokenPerms, granted) then Ok(Forbidden)
          else if user.None? then Err(JsonFailure)
          else
            var newToken := Token(token.expiry, user.value, map["path" := capPath, "perms" := granted]);
            Ok(Shared(newToken, capPath + "?" + Query(create(newToken))))
  }

  /**
   * Sharing only attenuates: a shared capability expires with the original,
   * opens the same path, and holds no permission letter the original lacks.
   */
  lemma ShareAttenuates(read: StoreRead, create: Token -> string, capPath: string, capQuery: Option<string>,
                        perms: Option<string>, user: Option<string>)
    requires Share(read, create, capPath, capQuery, perms, user).Ok?
    requires Share(read, create, capPath, capQuery, perms, user).value.Shared?
    ensures var original := read(QueryTokenId(capQuery.value)).value.value;
      var shared := Share(read, create, capPath, capQuery, perms, user).value.token;
      shared.expiry == original.expiry && shared.attributes["path"] == original.attributes["path"] &&
      forall c :: c in shared.attributes["perms"] ==> c in original.attributes["perms"]
  {
    var original := read(QueryTokenId(capQuery.value)).value.value;
    var shared := Share(read, create, capPath, capQuery, perms, user).value.token;
    ContainsLetters(original.attributes["perms"], shared.attributes["perms"]);
  }

  /**
   * A capability URI made by `createUri` can be shared: its query leads
   * `share` back to the token, so with the default permissions the new
   * user gets the same path, permissions and expiry.
   */
  lemma ShareCreated(read: StoreRead, create: Token -> string, subject: string, now: int, path: string,
                     perms: string, expiryDuration: int, user: string)
    requires var (token, _) := CreateUri(create, subject, now, path, perms, expiryDuration);
      read(create(token)) == Ok(Some(token))
    ensures var (token, _) := CreateUri(create, subject, now, path, perms, expiryDuration);
      Share(read, create, path, Some(Query(create(token))), None, Some(user)).Ok? &&
      Share(read, create, path, Some(Query(create(token))), None, Some(user)).value.token ==
        Token(now + expiryDuration, user, map["path" := path, "perms" := perms])
  {
    var (token, _) := CreateUri(create, subject, now, path, perms, expiryDuration);
    QueryRoundTrip(create(token));
    assert Contains(perms, perms) by { assert OccursAt(perms, perms, 0); }
  }
}
