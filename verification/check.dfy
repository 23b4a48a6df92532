/**
 * `GET /api/auth/check` (app/api/auth/check/route.ts): tells the dashboard
 * whether the browser's cookies hold a valid session. It always answers
 * 200; the decision is in the body.
 */
module CheckRoute {
  import opened Wrappers
  import opened Encoding
  import opened Http

  /** The session decision: both cookies present and non-empty, and the
      stored hash equal to the digest of the token. */
  function CheckSession(jar: CookieJar, sha: string -> HexDigest): (r: Response)
    ensures r.status == 200 && r.payload.AuthJson?
    ensures CookieValue(jar, SessionCookie).GetOr("") == "" ==> !r.payload.authenticated
    ensures CookieValue(jar, HashCookie).GetOr("") == "" ==> !r.payload.authenticated
    ensures r.payload.authenticated <==>
      SessionCookie in jar && HashCookie in jar && jar[SessionCookie] != ""
      && sha(jar[SessionCookie]) == jar[HashCookie]
  {
    var token, stored := CookieValue(jar, SessionCookie), CookieValue(jar, HashCookie);
    if token.GetOr("") == "" || stored.GetOr("") == "" then
      Response(200, AuthJson(false))
    else if sha(token.value) != stored.value then
      Response(200, AuthJson(false))
    else
      Response(200, AuthJson(true))
  }
}
