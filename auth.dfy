/**
 * The bearer-token check of src/auth.ts: the Authorization header is split on
 * a space and three guards run in order (missing, format, token).
 */
module Auth {
  import opened Wrappers
  import opened Strings

  datatype AuthError = MissingAuthorizationHeader | InvalidAuthorizationFormat | InvalidToken

  datatype AuthResult = Ok | Fail(error: AuthError)

  /** The `error` string each failure is reported with. */
  function ErrorCode(e: AuthError): string
  {
    match e
    case MissingAuthorizationHeader => "missing_authorization_header"
    case InvalidAuthorizationFormat => "invalid_authorization_format"
    case InvalidToken => "invalid_token"
  }

  const Scheme: string := "Bearer "

  /**
   * Reference reading of a well-formed header: the text "Bearer ", then a
   * token that holds no further space. Gives that token, or None.
   */
  function BearerToken(header: string): (t: Option<string>)
    ensures t.Some? ==> header == Scheme + t.value && ' ' !in t.value
  {
    if StartsWith(header, Scheme) && ' ' !in header[|Scheme|..] then
      assert header == header[..|Scheme|] + header[|Scheme|..];
      Some(header[|Scheme|..])
    else None
  }

  /**
   * The source's test (`split(" ")` gives exactly two parts, the first of
   * them "Bearer") accepts exactly the headers the reference reading accepts,
   * and its second part is the token.
   */
  lemma SplitMatchesBearer(header: string)
    ensures var parts := Split(header, ' ');
            (|parts| == 2 && parts[0] == "Bearer") <==> BearerToken(header).Some?
    ensures var parts := Split(header, ' ');
            |parts| == 2 && parts[0] == "Bearer" ==> parts[1] == BearerToken(header).value
  {
    var parts := Split(header, ' ');
    if |parts| == 2 && parts[0] == "Bearer" {
      JoinSplit(header, ' ');
      assert parts[1..] == [parts[1]];
      assert header == "Bearer" + " " + parts[1];
      assert header[..|Scheme|] == Scheme;
      assert header[|Scheme|..] == parts[1];
    }
    if BearerToken(header).Some? {
      var t := BearerToken(header).value;
      assert ' ' !in "Bearer";
      SplitJoin(["Bearer", t], ' ');
      assert Join(["Bearer", t], " ") == "Bearer" + " " + Join([t], " ") by {
        assert ["Bearer", t][1..] == [t];
      }
      assert Join(["Bearer", t], " ") == header;
    }
  }

  /**
   * `verifyBearerToken`: `authHeader` is the header value, None when the
   * request has no Authorization header.
   */
  function VerifyBearerToken(authHeader: Option<string>, expectedToken: string): (r: AuthResult)
    // guard 1: a missing or empty header
    ensures r == Fail(MissingAuthorizationHeader) <==> authHeader.None? || authHeader.value == ""
    // guard 2: a present header that is not "Bearer <token without spaces>"
    ensures r == Fail(InvalidAuthorizationFormat) <==>
              authHeader.Some? && authHeader.value != "" && BearerToken(authHeader.value).None?
    // guard 3: a well-formed header carrying another token
    ensures r == Fail(InvalidToken) <==>
              authHeader.Some? && BearerToken(authHeader.value).Some? &&
              BearerToken(authHeader.value).value != expectedToken
    // success exactly for "Bearer " + expectedToken, when the token itself holds no space
    ensures r == Ok <==> authHeader == Some(Scheme + expectedToken) && ' ' !in expectedToken
  {
    if authHeader.None? || authHeader.value == "" then Fail(MissingAuthorizationHeader)
    else
      var parts := Split(authHeader.value, ' ');
      SplitMatchesBearer(authHeader.value);
      if |parts| != 2 || parts[0] != "Bearer" then Fail(InvalidAuthorizationFormat)
      else
        var token := parts[1];
        if token != expectedToken then Fail(InvalidToken)
        else
          assert (Scheme + expectedToken)[|Scheme|..] == expectedToken;
          Ok
  }

  /**
   * Any other scheme ("Basic ...", a lower-case "bearer ...", a bare token)
   * is a format error, whatever the expected token.
   */
  lemma OtherSchemeRejected(header: string, token: string)
    requires header != "" && !StartsWith(header, Scheme)
    ensures VerifyBearerToken(Some(header), token) == Fail(InvalidAuthorizationFormat)
  {
    assert BearerToken(header).None?;
  }

  /** A doubled space leaves a space inside the token: a format error, not a token mismatch. */
  lemma DoubledSpaceRejected(token: string)
    ensures VerifyBearerToken(Some(Scheme + " " + token), token) == Fail(InvalidAuthorizationFormat)
  {
    var h := Scheme + " " + token;
    assert h[|Scheme|..][0] == ' ';
    assert BearerToken(h).None?;
  }
}
