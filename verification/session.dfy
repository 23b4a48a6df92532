/**
 * The session gate as a whole: the browser's cookie jar carried from one
 * route to the next. Login opens a session that both the check route and
 * the messages route accept, logout closes it, and a refused login leaves
 * the jar as it was.
 */
module SessionGate {
  import opened Wrappers
  import opened Encoding
  import opened Http
  import opened LoginRoute
  import opened CheckRoute
  import opened LogoutRoute
  import MessagesRoute

  /** The check route and the messages route decide alike. */
  lemma CheckAgreesWithIsAuthenticated(jar: CookieJar, sha: string -> HexDigest)
    ensures CheckSession(jar, sha).payload.authenticated == MessagesRoute.IsAuthenticated(jar, sha)
  {
  }

  /** After a successful login, whatever the jar held before, the check
      route reports a session and the messages route lets the browser in. */
  lemma LoginOpensSession(jar: CookieJar, body: JsonBody, configured: Option<string>,
                          randomBytes: seq<byte>, sha: string -> HexDigest, production: bool)
    requires |randomBytes| == 32
    requires CheckLogin(body, configured).Accepted?
    ensures var after := ApplyCookies(jar, LoginCookies(body, configured, randomBytes, sha, production));
      CheckSession(after, sha) == Response(200, AuthJson(true))
      && MessagesRoute.IsAuthenticated(after, sha)
  {
    var token := SessionToken(randomBytes);
    var after := ApplyCookies(jar, LoginCookies(body, configured, randomBytes, sha, production));
    assert after[SessionCookie] == token && after[HashCookie] == sha(token);
  }

  /** A refused login sets no cookie, so the jar is unchanged. */
  lemma RefusedLoginKeepsJar(jar: CookieJar, body: JsonBody, configured: Option<string>,
                             randomBytes: seq<byte>, sha: string -> HexDigest, production: bool)
    requires |randomBytes| == 32
    requires CheckLogin(body, configured).Rejected?
    ensures ApplyCookies(jar, LoginCookies(body, configured, randomBytes, sha, production)) == jar
  {
    ApplyNothing(jar);
  }

  /** After logout neither route sees a session, whatever the jar held. */
  lemma LogoutClosesSession(jar: CookieJar, sha: string -> HexDigest, production: bool)
    ensures var after := ApplyCookies(jar, ClearedCookies(production));
      SessionCookie !in after && HashCookie !in after
      && CheckSession(after, sha) == Response(200, AuthJson(false))
      && !MessagesRoute.IsAuthenticated(after, sha)
  {
  }

  /** Even a client that kept the emptied cookies instead of deleting them
      has no session. */
  lemma EmptiedCookiesHaveNoSession(jar: CookieJar, sha: string -> HexDigest)
    ensures !CheckSession(jar[SessionCookie := ""][HashCookie := ""], sha).payload.authenticated
  {
  }

  /** Logging out twice is logging out once. */
  lemma LogoutIdempotent(jar: CookieJar, production: bool)
    ensures var once := ApplyCookies(jar, ClearedCookies(production));
      ApplyCookies(once, ClearedCookies(production)) == once
  {
    var c := ClearedCookies(production);
    var once := ApplyCookies(jar, c);
    var twice := ApplyCookies(once, c);
    assert twice.Keys == once.Keys;
  }

  /** A forged hash cookie opens no session unless it is the digest of the
      token sent beside it. */
  lemma SessionNeedsMatchingDigest(jar: CookieJar, sha: string -> HexDigest)
    requires SessionCookie in jar && HashCookie in jar
    requires sha(jar[SessionCookie]) != jar[HashCookie]
    ensures !CheckSession(jar, sha).payload.authenticated
    ensures !MessagesRoute.IsAuthenticated(jar, sha)
  {
  }
}
