/**
 * `handleRequest` of src/router.ts: every path under "/api/" is
 * authenticated first; then "/api/locations" dispatches on the method and
 * every other path is not found.
 */
module Router {
  import opened Wrappers
  import opened Strings
  import opened Http
  import Auth

  datatype Request = Request(path: string, httpMethod: string, authorization: Option<string>)

  /** Where a request ends up. */
  datatype Route =
    | Unauthorized(error: Auth.AuthError)
    | PostLocations
    | GetLocations
    | MethodNotAllowed
    | NotFound

  const ApiPrefix := "/api/"
  const LocationsPath := "/api/locations"

  predicate Authenticated(req: Request, apiToken: string)
  {
    Auth.VerifyBearerToken(req.authorization, apiToken) == Auth.Ok
  }

  /** The auth-then-route decision of `handleRequest`. */
  function Dispatch(req: Request, apiToken: string): (route: Route)
    // auth failures stop every /api/ request, whatever its method or path
    ensures route.Unauthorized? <==> StartsWith(req.path, ApiPrefix) && !Authenticated(req, apiToken)
    ensures route.Unauthorized? ==>
              Auth.VerifyBearerToken(req.authorization, apiToken) == Auth.Fail(route.error)
    // the handlers are reached only by an authenticated request to /api/locations
    ensures route == PostLocations <==>
              req.path == LocationsPath && req.httpMethod == "POST" && Authenticated(req, apiToken)
    ensures route == GetLocations <==>
              req.path == LocationsPath && req.httpMethod == "GET" && Authenticated(req, apiToken)
    ensures route == MethodNotAllowed <==>
              req.path == LocationsPath && req.httpMethod !in {"POST", "GET"} && Authenticated(req, apiToken)
    // every other path is not found, unknown /api/ paths included once authenticated
    ensures route == NotFound <==>
              req.path != LocationsPath && (!StartsWith(req.path, ApiPrefix) || Authenticated(req, apiToken))
  {
    assert StartsWith(LocationsPath, ApiPrefix);
    var auth := Auth.VerifyBearerToken(req.authorization, apiToken);
    if StartsWith(req.path, ApiPrefix) && auth.Fail? then Unauthorized(auth.error)
    else if req.path == LocationsPath then
      if req.httpMethod == "POST" then PostLocations
      else if req.httpMethod == "GET" then GetLocations
      else MethodNotAllowed
    else NotFound
  }

  /**
   * `handleRequest`: the response for a request, given the responses the two
   * handlers would give it.
   */
  function HandleRequest(req: Request, apiToken: string, postResponse: Response, getResponse: Response): (resp: Response)
    ensures resp.status == 401 <==> Dispatch(req, apiToken).Unauthorized? ||
                                    (Dispatch(req, apiToken) == PostLocations && postResponse.status == 401) ||
                                    (Dispatch(req, apiToken) == GetLocations && getResponse.status == 401)
    ensures Dispatch(req, apiToken).Unauthorized? ==>
              resp == ErrorResponse(Auth.ErrorCode(Dispatch(req, apiToken).error), 401)
    ensures Dispatch(req, apiToken) == PostLocations ==> resp == postResponse
    ensures Dispatch(req, apiToken) == GetLocations ==> resp == getResponse
    ensures Dispatch(req, apiToken) == MethodNotAllowed ==> resp == Response(405, None, Text("Method Not Allowed"))
    ensures Dispatch(req, apiToken) == NotFound ==> resp == Response(404, None, Text("Not Found"))
  {
    match Dispatch(req, apiToken)
    case Unauthorized(e) => ErrorResponse(Auth.ErrorCode(e), 401)
    case PostLocations => postResponse
    case GetLocations => getResponse
    case MethodNotAllowed => Response(405, None, Text("Method Not Allowed"))
    case NotFound => Response(404, None, Text("Not Found"))
  }

  /** A path outside "/api/" is routed without looking at the header or the token. */
  lemma NonApiIgnoresAuth(path: string, httpMethod: string, h1: Option<string>, h2: Option<string>, t1: string, t2: string)
    requires !StartsWith(path, ApiPrefix)
    ensures Dispatch(Request(path, httpMethod, h1), t1) == Dispatch(Request(path, httpMethod, h2), t2) == NotFound
  {
    assert StartsWith(LocationsPath, ApiPrefix);
  }

  /**
   * Authentication is decided before the route: an /api/ request with a bad
   * header gets the same 401 whatever its method, and whether or not its path exists.
   */
  lemma AuthBeforeRouting(p1: string, p2: string, m1: string, m2: string, h: Option<string>, token: string)
    requires StartsWith(p1, ApiPrefix) && StartsWith(p2, ApiPrefix)
    requires Auth.VerifyBearerToken(h, token).Fail?
    ensures Dispatch(Request(p1, m1, h), token) == Dispatch(Request(p2, m2, h), token)
    ensures Dispatch(Request(p1, m1, h), token) == Unauthorized(Auth.VerifyBearerToken(h, token).error)
  {
  }

  /** A handler runs only for a request carrying exactly "Bearer " + the API token. */
  lemma HandlersRequireToken(req: Request, apiToken: string)
    requires Dispatch(req, apiToken) in {PostLocations, GetLocations}
    ensures req.authorization == Some("Bearer " + apiToken)
  {
  }

  /** The integration tests' 404 and 405 cases, with a valid token. */
  lemma UnknownRouteAndMethod(apiToken: string)
    requires ' ' !in apiToken
    ensures Dispatch(Request("/api/unknown", "GET", Some("Bearer " + apiToken)), apiToken) == NotFound
    ensures Dispatch(Request(LocationsPath, "DELETE", Some("Bearer " + apiToken)), apiToken) == MethodNotAllowed
  {
    assert StartsWith("/api/unknown", ApiPrefix);
  }
}
