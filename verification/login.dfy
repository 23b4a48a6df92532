/**
 * `POST /api/auth/login` (app/api/auth/login/route.ts): checks a password
 * against the configured one and, on success, opens a session by setting
 * two cookies. The configured password, the 32 random bytes, the SHA-256
 * digest and the deployment mode are parameters.
 */
module LoginRoute {
  import opened Wrappers
  import opened JsText
  import opened Encoding
  import opened Http

  /** Lifetime of both session cookies: one day, in seconds. */
  const OneDay: int := 60 * 60 * 24

  /** `crypto.randomBytes(32).toString("hex")`. */
  function SessionToken(randomBytes: seq<byte>): (token: string)
    requires |randomBytes| == 32
    ensures |token| == 64 && IsLowerHexString(token)
    ensures FromHex(token) == randomBytes
  {
    HexRoundTrip(randomBytes);
    ToHex(randomBytes)
  }

  /** The length-then-`timingSafeEqual` comparison of the two passwords'
      UTF-8 bytes. Over strings of Unicode scalar values it accepts exactly
      the configured password (a lone surrogate, which UTF-8 encoding turns
      into U+FFFD, is outside this model). */
  function PasswordMatches(supplied: string, configured: string): (ok: bool)
    ensures ok <==> supplied == configured
  {
    var a, b := Utf8(supplied), Utf8(configured);
    if |a| == |b| && a == b then
      Utf8Injective(supplied, configured);
      true
    else false
  }

  datatype LoginOutcome = Rejected(response: Response) | Accepted

  /** The handler's checks in order: a body that cannot be destructured,
      then an unset password configuration, then a missing or non-string
      password, then a wrong one. */
  function CheckLogin(body: JsonBody, configured: Option<string>): (r: LoginOutcome)
    ensures !body.Value? ==> r == Rejected(Response(500, ErrorJson("Something went wrong")))
    ensures body.Value? && !Truthy(configured.GetOr("")) ==>
      r == Rejected(Response(500, ErrorJson("Server configuration error")))
    ensures body.Value? && Truthy(configured.GetOr("")) && !Lookup(body.fields, "password").Str? ==>
      r == Rejected(Response(400, ErrorJson("Password is required")))
    ensures body.Value? && Truthy(configured.GetOr("")) && Lookup(body.fields, "password") == Str("") ==>
      r == Rejected(Response(400, ErrorJson("Password is required")))
    ensures r.Accepted? <==>
      body.Value? && configured.Some? && configured.value != "" && Lookup(body.fields, "password") == Str(configured.value)
    ensures r.Rejected? && r.response.status == 401 ==> r.response.payload == ErrorJson("Invalid password")
    ensures r.Rejected? ==> r.response.status in {400, 401, 500}
  {
    if !body.Value? then Rejected(Response(500, ErrorJson("Something went wrong")))
    else if configured.None? || configured.value == "" then
      Rejected(Response(500, ErrorJson("Server configuration error")))
    else match Lookup(body.fields, "password")
      case Str(p) =>
        if p == "" then Rejected(Response(400, ErrorJson("Password is required")))
        else if PasswordMatches(p, configured.value) then Accepted
        else Rejected(Response(401, ErrorJson("Invalid password")))
      case _ => Rejected(Response(400, ErrorJson("Password is required")))
  }

  /** The two cookies of a fresh session: the token, and the digest of that
      same token, each for one day. */
  function SessionCookies(token: string, sha: string -> HexDigest, production: bool): (c: map<string, SetCookie>)
    ensures c.Keys == {SessionCookie, HashCookie}
    ensures c[SessionCookie].value == token && c[HashCookie].value == sha(token)
    ensures c[SessionCookie].options == c[HashCookie].options == SessionOptions(production, OneDay)
  {
    map[SessionCookie := SetCookie(token, SessionOptions(production, OneDay)),
        HashCookie := SetCookie(sha(token), SessionOptions(production, OneDay))]
  }

  /** The `Set-Cookie` headers of the response: nothing for a rejected
      request; on success the two session cookies, the token being the hex
      form of the random bytes and the other cookie its digest. */
  function LoginCookies(body: JsonBody, configured: Option<string>, randomBytes: seq<byte>,
                        sha: string -> HexDigest, production: bool): (c: map<string, SetCookie>)
    requires |randomBytes| == 32
    ensures !CheckLogin(body, configured).Accepted? ==> c == map[]
    ensures CheckLogin(body, configured).Accepted? ==>
      c.Keys == {SessionCookie, HashCookie}
      && |c[SessionCookie].value| == 64 && IsLowerHexString(c[SessionCookie].value)
      && FromHex(c[SessionCookie].value) == randomBytes
      && c[HashCookie].value == sha(c[SessionCookie].value)
  {
    if CheckLogin(body, configured).Accepted? then SessionCookies(SessionToken(randomBytes), sha, production)
    else map[]
  }

  /** The handler. A rejected request carries no cookies; an accepted one
      answers `{ success: true }` and opens the session. */
  method Login(body: JsonBody, configured: Option<string>, randomBytes: seq<byte>,
               sha: string -> HexDigest, production: bool)
    returns (res: Response, cookies: ResponseCookies)
    requires |randomBytes| == 32
    ensures fresh(cookies)
    ensures CheckLogin(body, configured).Rejected? ==> res == CheckLogin(body, configured).response
    ensures CheckLogin(body, configured).Accepted? ==> res == Response(200, SuccessJson)
    ensures cookies.pending == LoginCookies(body, configured, randomBytes, sha, production)
  {
    cookies := new ResponseCookies();
    var outcome := CheckLogin(body, configured);
    if outcome.Rejected? {
      return outcome.response, cookies;
    }
    var token := SessionToken(randomBytes);
    res := Response(200, SuccessJson);
    cookies.Set(SessionCookie, token, SessionOptions(production, OneDay));
    var tokenHash := sha(token);
    cookies.Set(HashCookie, tokenHash, SessionOptions(production, OneDay));
  }
}
