/**
 * `UserController`: user registration checks, HTTP Basic credential
 * parsing (section 2 of RFC 7617), client-certificate subjects, and the
 * authentication and permission filters. Password hashing is a parameter;
 * the database is not part of this model.
 */
module UserController {
  import opened Common
  import opened JavaStrings
  import opened Base64url
  import opened TokenStore
  import opened Web

  predicate AsciiLetter(c: char) { 'a' <= c <= 'z' || 'A' <= c <= 'Z' }

  predicate AsciiAlphanumeric(c: char) { AsciiLetter(c) || '0' <= c <= '9' }

  /** `USERNAME_PATTERN`, `[a-zA-Z][a-zA-Z0-9]{1,29}`, matched against the whole string. */
  predicate ValidUsername(s: string) {
    2 <= |s| <= 30 && AsciiLetter(s[0]) && forall k :: 1 <= k < |s| ==> AsciiAlphanumeric(s[k])
  }

  /** A valid user name holds no character with a meaning in the formats it is placed in. */
  lemma ValidUsernameIsPlain(s: string)
    requires ValidUsername(s)
    ensures ':' !in s && '/' !in s && ' ' !in s && '.' !in s
  {
    forall c | c in s ensures AsciiAlphanumeric(c) {
      var k :| 0 <= k < |s| && s[k] == c;
      assert k == 0 || AsciiAlphanumeric(s[k]);
    }
  }

  const MinPasswordLength := 8

  /** What `registerUser` stores and answers: the user, the scrypt hash if any, and the `Location`. */
  datatype Registration = Registration(username: string, hash: Option<string>, location: string)

  /**
   * `registerUser`: the body's `username` must be present and valid; a
   * password, when given, must have at least 8 characters and is stored
   * hashed; without one no hash is stored. Answers 201 with the user's URI.
   */
  function RegisterUser(scrypt: string -> string, username: Option<string>, password: Option<string>)
    : (r: Result<Registration, Exception>)
    ensures username.None? ==> r == Err(JsonFailure)
    ensures username.Some? && !ValidUsername(username.value) ==> r == Err(IllegalArgument("invalid username"))
    ensures r.Ok? <==>
      username.Some? && ValidUsername(username.value) && (password.None? || |password.value| >= MinPasswordLength)
    ensures r.Ok? ==>
      r.value.username == username.value && r.value.location == "/users/" + username.value &&
      (r.value.hash.Some? <==> password.Some?) &&
      (password.Some? ==> r.value.hash == Some(scrypt(password.value)))
    ensures r.Err? && username.Some? && ValidUsername(username.value) ==>
      r == Err(IllegalArgument("password must be at least 8 characters"))
  {
    match username
    case None => Err(JsonFailure)
    case Some(u) =>
      if !ValidUsername(u) then Err(IllegalArgument("invalid username"))
      else
        match password
        case None => Ok(Registration(u, None, "/users/" + u))
        case Some(p) =>
          if |p| < MinPasswordLength then Err(IllegalArgument("password must be at least 8 characters"))
          else Ok(Registration(u, Some(scrypt(p)), "/users/" + u))
  }

  const BasicPrefix := "Basic "

  /**
   * `getCredentials`: no `Authorization` header, or one not starting with
   * `Basic `, gives no credentials; the rest must be standard base64 of
   * UTF-8 text holding a colon; the user name before the first colon must
   * be valid, and the password after it may hold colons.
   */
  function GetCredentials(utf8: Utf8, authHeader: Option<string>): (r: Result<Option<(string, string)>, Exception>)
    ensures authHeader.None? || !StartsWith(authHeader.value, BasicPrefix) ==> r == Ok(None)
    ensures r.Ok? && r.value.Some? ==> var (user, password) := r.value.value;
      authHeader.Some? && StartsWith(authHeader.value, BasicPrefix) &&
      Decode(authHeader.value[|BasicPrefix|..], false).Some? &&
      utf8.decode(Decode(authHeader.value[|BasicPrefix|..], false).value) == user + ":" + password &&
      ValidUsername(user)
    ensures r.Err? ==> r.error.IllegalArgument?
    ensures authHeader.Some? && StartsWith(authHeader.value, BasicPrefix) ==>
      var decoded := Decode(authHeader.value[|BasicPrefix|..], false);
      (decoded.None? ==> r == Err(IllegalArgument("Illegal base64 character"))) &&
      (decoded.Some? ==>
        var components := SplitOnce(utf8.decode(decoded.value), ':');
        (|components| != 2 ==> r == Err(IllegalArgument("invalid auth header"))) &&
        (|components| == 2 && !ValidUsername(components[0]) ==> r == Err(IllegalArgument("invalid username"))) &&
        (|components| == 2 && ValidUsername(components[0]) ==> r == Ok(Some((components[0], components[1])))))
  {
    match authHeader
    case None => Ok(None)
    case Some(h) =>
      if !StartsWith(h, BasicPrefix) then Ok(None)
      else
        match Decode(h[|BasicPrefix|..], false)
        case None => Err(IllegalArgument("Illegal base64 character"))
        case Some(bytes) =>
          var credentials := utf8.decode(bytes);
          var components := SplitOnce(credentials, ':');
          if |components| != 2 then Err(IllegalArgument("invalid auth header"))
          else if !ValidUsername(components[0]) then Err(IllegalArgument("invalid username"))
          else Ok(Some((components[0], components[1])))
  }

  /** Basic credentials for a valid user name parse back to that user and password, whatever colons the password holds. */
  lemma BasicRoundTrip(utf8: Utf8, user: string, password: string)
    requires ValidUsername(user)
    requires utf8.decode(utf8.encode(user + ":" + password)) == user + ":" + password
    ensures GetCredentials(utf8, Some(BasicPrefix + Encode(utf8.encode(user + ":" + password), false))) ==
      Ok(Some((user, password)))
  {
    var text := user + ":" + password;
    var header := BasicPrefix + Encode(utf8.encode(text), false);
    assert header[..|BasicPrefix|] == BasicPrefix && header[|BasicPrefix|..] == Encode(utf8.encode(text), false);
    UnpaddedRoundTrip(utf8.encode(text), false);
    ValidUsernameIsPlain(user);
    assert text[|user|] == ':' && text[..|user|] == user && text[|user| + 1..] == password;
    assert IndexOf(text, ':') == |user|;
  }

  /** Decoded credentials without a colon are refused. */
  lemma NoColonRefused(utf8: Utf8, header: string)
    requires StartsWith(header, BasicPrefix) && Decode(header[|BasicPrefix|..], false).Some?
    requires ':' !in utf8.decode(Decode(header[|BasicPrefix|..], false).value)
    ensures GetCredentials(utf8, Some(header)) == Err(IllegalArgument("invalid auth header"))
  {
  }

  /** `GeneralName` entry of a certificate's subject alternative names: its type and, for DNS names, the name. */
  datatype San = San(kind: int, name: string)

  const DnsType := 2

  /** The name of the first DNS entry among the alternative names, if any. */
  function FirstDnsName(sans: seq<San>): (r: Option<string>)
    ensures r.None? <==> forall k :: 0 <= k < |sans| ==> sans[k].kind != DnsType
  {
    if sans == [] then None
    else if sans[0].kind == DnsType then Some(sans[0].name)
    else
      assert forall k :: 1 <= k < |sans| ==> sans[k] == sans[1..][k - 1];
      FirstDnsName(sans[1..])
  }

  /** The name found is that of a DNS entry with no DNS entry before it. */
  lemma {:induction false} FirstDnsAt(sans: seq<San>, i: nat)
    requires i < |sans| && sans[i].kind == DnsType && forall k :: 0 <= k < i ==> sans[k].kind != DnsType
    ensures FirstDnsName(sans) == Some(sans[i].name)
  {
    if i > 0 {
      FirstDnsAt(sans[1..], i - 1);
    }
  }

  /**
   * `processClientCertificateAuth`: the subject becomes the first DNS name
   * among the certificate's alternative names; a certificate without
   * alternative names (`null`) or without a DNS one sets nothing.
   */
  method ProcessClientCertificateAuth(sans: Option<seq<San>>, request: Request)
    modifies request
    ensures sans.None? || FirstDnsName(sans.value).None? ==> request.attributes == old(request.attributes)
    ensures sans.Some? && FirstDnsName(sans.value).Some? ==>
      request.attributes == old(request.attributes)["subject" := FirstDnsName(sans.value).value]
  {
    if sans.None? {
      return;
    }
    var names := sans.value;
    var i := 0;
    while i < |names|
      invariant 0 <= i <= |names|
      invariant forall k :: 0 <= k < i ==> names[k].kind != DnsType
      invariant request.attributes == old(request.attributes)
    {
      if names[i].kind == DnsType {
        FirstDnsAt(names, i);
        request.attributes := request.attributes["subject" := names[i].name];
        return;
      }
      i := i + 1;
    }
  }

  /**
   * `requireAuthentication`: a request without a subject is refused with
   * 401 and a challenge for a bearer token.
   */
  method RequireAuthentication(request: Request, response: Response) returns (outcome: Outcome)
    modifies response
    ensures "subject" in request.attributes ==> outcome == Continue && response.headers == old(response.headers)
    ensures "subject" !in request.attributes ==>
      outcome == Halt(401, "") && response.headers == old(response.headers)["WWW-Authenticate" := "Bearer"]
  {
    if "subject" !in request.attributes {
      response.headers := response.headers["WWW-Authenticate" := "Bearer"];
      return Halt(401, "");
    }
    outcome := Continue;
  }

  /**
   * The filter `requirePermission(method, permission)` returns: other
   * methods pass; otherwise the request's permissions must contain the
   * permission as a substring, else 403.
   */
  function RequirePermission(routeMethod: string, permission: string, requestMethod: string, perms: Option<string>)
    : (outcome: Outcome)
    ensures outcome.Halt? ==> outcome == Halt(403, "")
    ensures outcome == Continue <==>
      routeMethod != requestMethod || (perms.Some? && exists i :: OccursAt(perms.value, permission, i))
  {
    if routeMethod != requestMethod then Continue
    else if perms.None? || !Contains(perms.value, permission) then Halt(403, "")
    else Continue
  }

  /** Permissions are compared as substrings, not as sets of letters: `rd` is refused against `rwd`. */
  lemma SubstringNotLetters()
    ensures RequirePermission("DELETE", "rd", "DELETE", Some("rwd")) == Halt(403, "")
    ensures RequirePermission("DELETE", "d", "DELETE", Some("rwd")) == Continue
  {
    assert OccursAt("rwd", "d", 2);
    assert forall i :: !OccursAt("rwd", "rd", i) by {
      forall i ensures !OccursAt("rwd", "rd", i) {
        if 0 <= i && i + 2 <= 3 {
          assert "rwd"[i..i + 2][0] == "rwd"[i] && "rwd"[i..i + 2][1] == "rwd"[i + 1];
        }
      }
    }
  }

  /** A permission the filter lets through is made of letters the request's permissions hold. */
  lemma PermittedLettersHeld(routeMethod: string, permission: string, perms: string)
    requires RequirePermission(routeMethod, permission, routeMethod, Some(perms)) == Continue
    ensures forall c :: c in permission ==> c in perms
  {
    ContainsLetters(perms, permission);
  }
}
