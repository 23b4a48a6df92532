/**
 * `POST /api/auth/logout` (app/api/auth/logout/route.ts): ends the session
 * by overwriting both cookies with empty values that expire at once.
 */
module LogoutRoute {
  import opened Http

  /** Both session cookies, empty and with Max-Age zero. */
  function ClearedCookies(production: bool): (c: map<string, SetCookie>)
    ensures c.Keys == {SessionCookie, HashCookie}
    ensures forall n | n in c :: c[n].value == "" && c[n].options.maxAge == 0
  {
    map[SessionCookie := SetCookie("", SessionOptions(production, 0)),
        HashCookie := SetCookie("", SessionOptions(production, 0))]
  }

  /** The handler: whatever the request, `{ success: true }` with both
      cookies cleared. */
  method Logout(production: bool) returns (res: Response, cookies: ResponseCookies)
    ensures fresh(cookies)
    ensures res == Response(200, SuccessJson)
    ensures cookies.pending == ClearedCookies(production)
  {
    res := Response(200, SuccessJson);
    cookies := new ResponseCookies();
    cookies.Set(SessionCookie, "", SessionOptions(production, 0));
    cookies.Set(HashCookie, "", SessionOptions(production, 0));
  }
}
