/**
 * `AuthMiddleware` of `server/middleware/auth.go`: it reads the `Authorization`
 * header, insists on exactly `Bearer <token>`, validates the token and either
 * answers 401 or calls the wrapped handler with the token's user id in the
 * request context.
 */
module Middleware {
  import opened Wrappers
  import opened Text
  import opened Base64
  import opened Jwt

  const StatusUnauthorized: int := 401

  /** What the middleware does with one request. */
  datatype Outcome =
    | Reject(status: int, message: string)
    | CallNext(userId: int)

  /** The middleware for header value `header` (empty when absent) at clock
      reading `now`. */
  function Authorize(header: string, now: Instant): (r: Outcome)
    ensures r.Reject? ==> r.status == StatusUnauthorized
    ensures header == "" ==> r == Reject(StatusUnauthorized, "Authorization header required")
    ensures header != "" && (|Split(header, " ")| != 2 || Split(header, " ")[0] != "Bearer") ==>
      r == Reject(StatusUnauthorized, "Invalid authorization header")
    ensures (header != "" && |Split(header, " ")| == 2 && Split(header, " ")[0] == "Bearer"
             && ValidateToken(Split(header, " ")[1], now).Failure?) ==>
      r == Reject(StatusUnauthorized, ValidateToken(Split(header, " ")[1], now).error.Message())
    ensures r.CallNext? ==> |Split(header, " ")| == 2 && Split(header, " ")[0] == "Bearer"
    ensures r.CallNext? ==>
      ValidateToken(Split(header, " ")[1], now).Success?
      && r.userId == ValidateToken(Split(header, " ")[1], now).value.UserID
  {
    if header == "" then Reject(StatusUnauthorized, "Authorization header required")
    else
      var parts := Split(header, " ");
      if |parts| != 2 || parts[0] != "Bearer" then Reject(StatusUnauthorized, "Invalid authorization header")
      else
        match ValidateToken(parts[1], now)
        case Failure(e) => Reject(StatusUnauthorized, e.Message())
        case Success(claims) => CallNext(claims.UserID)
  }

  lemma NoSpaceInToken(token: string)
    requires forall i :: 0 <= i < |token| ==> EncodedChar(UrlSafe, token[i])
    ensures ' ' !in token
  {
  }

  lemma BearerSplit(token: string)
    requires ' ' !in token
    ensures Split("Bearer " + token, " ") == ["Bearer", token]
  {
    assert Join(["Bearer", token], " ") == "Bearer " + token;
    SplitJoin(["Bearer", token], ' ');
  }

  /** A request carrying a token the server generated reaches the handler, as
      the token's user, exactly while the token is unexpired; afterwards it is
      refused with the expiry message. */
  lemma GeneratedTokenAuthorizes(userId: int, issued: Instant, now: Instant)
    requires InRange(userId, Int64) && InRange(issued.sec + TokenExpirySeconds, Int64)
    ensures var r := Authorize("Bearer " + GenerateToken(userId, issued), now);
      if After(now, Instant(issued.sec + TokenExpirySeconds, 0))
      then r == Reject(StatusUnauthorized, "token has expired")
      else r == CallNext(userId)
  {
    var token := GenerateToken(userId, issued);
    NoSpaceInToken(token);
    BearerSplit(token);
    GeneratedTokenLifetime(userId, issued, now);
  }

  /** The scheme must be spelled `Bearer` and separated by exactly one space:
      a lower-case scheme, a doubled space or a missing token are refused
      before the token is looked at. */
  lemma MalformedHeaders(token: string, now: Instant)
    requires ' ' !in token
    ensures Authorize("bearer " + token, now) == Reject(StatusUnauthorized, "Invalid authorization header")
    ensures Authorize("Bearer  " + token, now) == Reject(StatusUnauthorized, "Invalid authorization header")
    ensures Authorize("Bearer", now) == Reject(StatusUnauthorized, "Invalid authorization header")
  {
    assert Join(["bearer", token], " ") == "bearer " + token;
    SplitJoin(["bearer", token], ' ');
    assert Join(["Bearer", "", token], " ") == "Bearer  " + token;
    SplitJoin(["Bearer", "", token], ' ');
    NoSeparator("Bearer", ' ', 0);
  }

  /** Whatever the header, the handler is only reached with a user id that a
      valid token carries; every other request gets a 401. */
  lemma OnlyValidTokensPass(header: string, now: Instant)
    ensures Authorize(header, now).CallNext? <==>
      header != "" && |Split(header, " ")| == 2 && Split(header, " ")[0] == "Bearer"
      && ValidateToken(Split(header, " ")[1], now).Success?
  {
  }
}
