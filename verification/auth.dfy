/**
 * The authentication gate placed in front of the protected routes: it reads
 * the Authorization header, takes the token after "Bearer", verifies it and
 * either rejects the request with 401 or passes it on with `req.user` set.
 */
module Auth {
  import opened Wrappers
  import opened Text
  import opened Jwt
  import opened Http

  const NoBearerToken: string := "No Bearer token"
  const TokenNotProvided: string := "Token not provided"
  const RouteNotAuthorized: string := "Route access not authorized"

  /** What the gate leaves in `req.user`: the `id` and `username` properties of the decoded payload. */
  datatype ReqUser = ReqUser(id: Option<Json>, username: Option<Json>)

  /**
   * The gate's decision. `Rejected` answers with the status and error and
   * never calls `next`; `Admitted` sets `req.user` and calls `next` exactly once.
   */
  datatype GateResult = Rejected(status: int, error: string) | Admitted(user: ReqUser)

  /** `header.split(" ")[1]`: the second space-separated piece, undefined when there is none. */
  function TokenOf(header: string): (t: Option<string>)
    ensures t.None? <==> ' ' !in header
    ensures t.Some? ==> ' ' !in t.value
  {
    var parts := Split(header, ' ');
    SplitSingle(header, ' ');
    if |parts| >= 2 then Some(parts[1]) else None
  }

  /** `authenticationMiddleware`: reject with 401, or admit with the decoded identity. */
  function Gate(header: Option<string>, verify: string -> Option<Claims>): (r: GateResult)
    ensures r.Rejected? ==> r.status == UNAUTHORIZED
    ensures header.None? || !StartsWith(header.value, "Bearer") ==> r == Rejected(UNAUTHORIZED, NoBearerToken)
    ensures header.Some? && StartsWith(header.value, "Bearer")
            && (TokenOf(header.value).None? || TokenOf(header.value).value == "") ==>
              r == Rejected(UNAUTHORIZED, TokenNotProvided)
    ensures header.Some? && StartsWith(header.value, "Bearer")
            && TokenOf(header.value).Some? && TokenOf(header.value).value != ""
            && verify(TokenOf(header.value).value).None? ==>
              r == Rejected(UNAUTHORIZED, RouteNotAuthorized)
    ensures r.Admitted? <==>
              header.Some? && StartsWith(header.value, "Bearer")
              && TokenOf(header.value).Some? && TokenOf(header.value).value != ""
              && verify(TokenOf(header.value).value).Some?
    ensures r.Admitted? ==> ' ' in header.value
    ensures r.Admitted? ==>
              var d := verify(TokenOf(header.value).value).value;
              r.user == ReqUser(Lookup(d, "id"), Lookup(d, "username"))
  {
    if header.None? || !StartsWith(header.value, "Bearer") then
      Rejected(UNAUTHORIZED, NoBearerToken)
    else
      var token := TokenOf(header.value);
      if token.None? || token.value == "" then
        Rejected(UNAUTHORIZED, TokenNotProvided)
      else
        match verify(token.value)
        case None => Rejected(UNAUTHORIZED, RouteNotAuthorized)
        case Some(decoded) => Admitted(ReqUser(Lookup(decoded, "id"), Lookup(decoded, "username")))
  }

  /**
   * The token is exactly the text between the first and the second space of
   * the header (or the end of the header when there is no second space).
   */
  lemma TokenBetweenSpaces(header: string, i: nat, j: nat)
    requires i < j <= |header| && header[i] == ' '
    requires forall k :: 0 <= k < i ==> header[k] != ' '
    requires forall k :: i < k < j ==> header[k] != ' '
    requires j == |header| || header[j] == ' '
    ensures TokenOf(header) == Some(header[i + 1..j])
  {
    var after := header[i + 1..];
    FirstPiece(header, ' ', i);
    FirstPiece(after, ' ', j - i - 1);
    assert after[..j - i - 1] == header[i + 1..j];
  }

  /** "Bearer" with nothing after it has no token: 401, `next` is not called. */
  lemma BareSchemeRejected(verify: string -> Option<Claims>)
    ensures Gate(Some("Bearer"), verify) == Rejected(UNAUTHORIZED, TokenNotProvided)
  {
    assert ' ' !in "Bearer";
  }

  /** Two spaces after "Bearer" make the token the empty piece between them: 401. */
  lemma DoubleSpaceRejected(rest: string, verify: string -> Option<Claims>)
    ensures Gate(Some("Bearer  " + rest), verify) == Rejected(UNAUTHORIZED, TokenNotProvided)
  {
    var h := "Bearer  " + rest;
    assert StartsWith(h, "Bearer") by { assert h[..6] == "Bearer"; }
    TokenBetweenSpaces(h, 6, 7);
    assert h[7..7] == "";
  }

  /**
   * The prefix test does not need a space after "Bearer": for a header such as
   * "BearerXYZ abc", the piece after the first space ("abc") is what gets verified.
   */
  lemma NoSpaceAfterScheme(junk: string, token: string, verify: string -> Option<Claims>)
    requires ' ' !in junk && ' ' !in token && token != ""
    ensures Gate(Some("Bearer" + junk + " " + token), verify) ==
              match verify(token)
              case None => Rejected(UNAUTHORIZED, RouteNotAuthorized)
              case Some(d) => Admitted(ReqUser(Lookup(d, "id"), Lookup(d, "username")))
  {
    var h := "Bearer" + junk + " " + token;
    var i := 6 + |junk|;
    assert StartsWith(h, "Bearer") by { assert h[..6] == "Bearer"; }
    assert forall k :: 6 <= k < i ==> h[k] == junk[k - 6];
    assert forall k :: i < k < |h| ==> h[k] == token[k - i - 1];
    TokenBetweenSpaces(h, i, |h|);
    assert h[i + 1..|h|] == token;
    assert TokenOf(h) == Some(token);
  }

  /** A well-shaped token sent as "Bearer <token>" reaches verification unchanged. */
  lemma BearerTokenVerified(token: string, verify: string -> Option<Claims>)
    requires TokenShaped(token)
    ensures Gate(Some("Bearer " + token), verify) ==
              match verify(token)
              case None => Rejected(UNAUTHORIZED, RouteNotAuthorized)
              case Some(d) => Admitted(ReqUser(Lookup(d, "id"), Lookup(d, "username")))
  {
    NoSpaceAfterScheme("", token, verify);
    assert "Bearer" + "" + " " + token == "Bearer " + token;
  }
}
