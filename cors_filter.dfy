/**
 * `CorsFilter`: grants cross-origin access, with credentials, to the
 * allow-listed origins only, and answers CORS preflight requests itself.
 */
module CorsFilter {
  import opened Common
  import opened Web

  const AllowOrigin := "Access-Control-Allow-Origin"
  const AllowCredentials := "Access-Control-Allow-Credentials"
  const AllowHeaders := "Access-Control-Allow-Headers"
  const AllowMethods := "Access-Control-Allow-Methods"

  /** `isPreflightRequest`: an OPTIONS request announcing the method it wants to use. */
  predicate IsPreflight(request: Request)
    reads request
  {
    request.requestMethod == "OPTIONS" && "Access-Control-Request-Method" in request.headers
  }

  /** The request's `Origin` header is present and on the allow-list. */
  predicate AllowedOrigin(allowedOrigins: set<string>, request: Request)
    reads request
  {
    "Origin" in request.headers && request.headers["Origin"] in allowedOrigins
  }

  /** The headers `handle` adds for an allowed origin: the origin echoed back, and credentials. */
  function OriginHeaders(origin: string): (h: map<string, string>)
    ensures h.Keys == {AllowOrigin, AllowCredentials} && h[AllowOrigin] == origin && h[AllowCredentials] == "true"
  {
    map[AllowOrigin := origin, AllowCredentials := "true"]
  }

  /**
   * `handle`: echoes an allowed origin; a preflight from any other origin
   * is halted with 403 before any preflight header is set; an allowed
   * preflight gets the permitted headers and methods and is halted with
   * 204; every other request continues.
   */
  method Handle(allowedOrigins: set<string>, request: Request, response: Response) returns (outcome: Outcome)
    modifies response
    ensures var granted := if AllowedOrigin(allowedOrigins, request) then OriginHeaders(request.headers["Origin"]) else map[];
      !IsPreflight(request) ==> outcome == Continue && response.headers == old(response.headers) + granted
    ensures IsPreflight(request) && !AllowedOrigin(allowedOrigins, request) ==>
      outcome == Halt(403, "") && response.headers == old(response.headers)
    ensures IsPreflight(request) && AllowedOrigin(allowedOrigins, request) ==>
      outcome == Halt(204, "") &&
      response.headers == old(response.headers) + OriginHeaders(request.headers["Origin"]) +
        map[AllowHeaders := "Content-Type", AllowMethods := "GET, POST, DELETE"]
    ensures AllowOrigin in response.headers && AllowOrigin !in old(response.headers) ==>
      AllowedOrigin(allowedOrigins, request) && response.headers[AllowOrigin] == request.headers["Origin"]
  {
    var origin := Lookup(request.headers, "Origin");
    if origin.Some? && origin.value in allowedOrigins {
      response.headers := response.headers + OriginHeaders(origin.value);
    }
    if IsPreflight(request) {
      if origin.None? || origin.value !in allowedOrigins {
        return Halt(403, "");
      }
      response.headers := response.headers + map[AllowHeaders := "Content-Type", AllowMethods := "GET, POST, DELETE"];
      return Halt(204, "");
    }
    outcome := Continue;
  }
}
