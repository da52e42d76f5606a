// Caller identification as the handlers perform it: the cookie ladder of the
// create handlers (pkg/handlers/uriPost.go, jsonPost.go, batchPost.go) and
// auth.CheckIsAuthorized (internal/auth/auth.go).  JWT parsing and signing are
// not modelled: the user id a token carries is the parameter userIdOf (the
// empty string for an invalid token), and the outcome of GenerateToken is an
// input.
module Auth {
  import opened Models

  /** What r.Cookie("token") gave: no cookie, some other error, or a token.
      net/http's Request.Cookie reports no error but http.ErrNoCookie, so
      CookieError never arises there; it stands for the handlers' branch for
      any other error, which the source keeps but cannot reach. */
  datatype CookieInput = NoCookie | CookieError | TokenCookie(token: string)

  /** The outcome of the cookie ladder: the caller's user id (with the token
      issued on this request, if one was), or the status the request fails with. */
  datatype Caller = Identified(userID: string, issued: Option<string>) | Refused(status: Status)

  /** The cookie ladder of the create handlers.  Without a cookie a token is
      issued (500 when that fails) and its user id is taken unchecked; a
      cookie that cannot be read is 400 (a branch net/http never takes, see
      CookieInput); a presented token that carries no
      user id is 401. */
  function IdentifyCaller(cookie: CookieInput, issued: Option<string>, userIdOf: string -> string): (c: Caller)
    ensures c == Refused(InternalServerError) <==> cookie.NoCookie? && issued.None?
    ensures c == Refused(BadRequest) <==> cookie.CookieError?
    ensures c == Refused(Unauthorized) <==> cookie.TokenCookie? && userIdOf(cookie.token) == ""
    ensures c.Identified? && cookie.TokenCookie? ==> c.userID == userIdOf(cookie.token) != "" && c.issued.None?
    ensures c.Identified? && cookie.NoCookie? ==> c.issued.Some? && c.userID == userIdOf(c.issued.value) && c.issued == issued
  {
    match cookie
    case NoCookie =>
      if issued.None? then Refused(InternalServerError)
      else Identified(userIdOf(issued.value), issued)
    case CookieError => Refused(BadRequest)
    case TokenCookie(token) =>
      var userID := userIdOf(token);
      if userID == "" then Refused(Unauthorized) else Identified(userID, None)
  }

  /** A freshly issued token is trusted without the check a presented one
      gets: its user id may be empty. */
  lemma IssuedTokenUnchecked(token: string, userIdOf: string -> string)
    requires userIdOf(token) == ""
    ensures IdentifyCaller(NoCookie, Some(token), userIdOf) == Identified("", Some(token))
    ensures IdentifyCaller(TokenCookie(token), None, userIdOf) == Refused(Unauthorized)
  {
  }

  /** The outcome of CheckIsAuthorized: a user id, or an error (401). */
  datatype AuthCheck = Authorized(userID: string) | NotAuthorized

  /** CheckIsAuthorized as written: a missing or unreadable cookie is an
      error, but a token without a user id returns the cookie error, which is
      nil at that point, so the caller is let through as the empty user. */
  function CheckIsAuthorizedAsWritten(cookie: CookieInput, userIdOf: string -> string): (a: AuthCheck)
    ensures a.NotAuthorized? <==> !cookie.TokenCookie?
    ensures a.Authorized? ==> a.userID == userIdOf(cookie.token)
  {
    match cookie
    case TokenCookie(token) =>
      var userID := userIdOf(token);
      if userID == "" then Authorized("") else Authorized(userID)
    case _ => NotAuthorized
  }

  /** An invalid token passes the check as written, as the empty user. */
  lemma InvalidTokenAuthorizedAsWritten()
    ensures CheckIsAuthorizedAsWritten(TokenCookie("forged"), t => "") == Authorized("")
  {
  }

  /** CheckIsAuthorized as its documentation states it: the user id of a
      valid token cookie, an error otherwise. */
  function CheckIsAuthorized(cookie: CookieInput, userIdOf: string -> string): (a: AuthCheck)
    ensures a.Authorized? <==> cookie.TokenCookie? && userIdOf(cookie.token) != ""
    ensures a.Authorized? ==> a.userID == userIdOf(cookie.token) != ""
  {
    match cookie
    case TokenCookie(token) =>
      var userID := userIdOf(token);
      if userID == "" then NotAuthorized else Authorized(userID)
    case _ => NotAuthorized
  }

  /** The two agree on every caller with a valid token or no token at all;
      they differ exactly on presented tokens without a user id. */
  lemma CheckIsAuthorizedDiffers(cookie: CookieInput, userIdOf: string -> string)
    ensures CheckIsAuthorized(cookie, userIdOf) != CheckIsAuthorizedAsWritten(cookie, userIdOf)
            <==> cookie.TokenCookie? && userIdOf(cookie.token) == ""
  {
  }
}
