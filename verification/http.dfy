/**
 * The request and response shapes the route handlers see: a parsed JSON
 * body reduced to the fields they read, the JSON or text response they
 * return, and cookies in both directions.
 */
module Http {
  import opened Wrappers
  import opened Types

  /** One property read off a parsed JSON body. `NonString` is any other
      JSON value (number, boolean, `null`, object, array) together with its
      truthiness. */
  datatype Field = Missing | Str(text: string) | NonString(truthy: bool)

  /** JavaScript truthiness of a property value. */
  predicate FieldTruthy(f: Field) {
    match f
    case Missing => false
    case Str(t) => t != []
    case NonString(b) => b
  }

  /** What `await request.json()` yields: a parse failure, `null` (whose
      destructuring throws), or a value whose properties can be read. A JSON
      number, string or array has none of the named properties and is
      `Value(map[])`. */
  datatype JsonBody = Unparsable | NullValue | Value(fields: map<string, Field>)

  /** The property `name` of a parsed body, `Missing` when absent. */
  function Lookup(fields: map<string, Field>, name: string): (f: Field)
    ensures name !in fields ==> f == Missing
  {
    if name in fields then fields[name] else Missing
  }

  /** The bodies the routes send back. */
  datatype Payload =
    | ErrorJson(error: string)                  // { error }
    | SuccessJson                               // { success: true }
    | SubmittedJson(notice: string)             // { success: true, message }
    | AuthJson(authenticated: bool)             // { authenticated }
    | MessagesJson(messages: seq<Message>)      // { messages }
    | MessageJson(updated: Option<Message>)     // { message }, possibly null
    | PlainText(text: string)                   // text/plain
    | Xml(text: string)                         // text/xml

  datatype Response = Response(status: int, payload: Payload)

  /** The options the routes pass to `cookies.set`. */
  datatype CookieOptions = CookieOptions(
    httpOnly: bool,
    secure: bool,
    sameSite: string,
    maxAge: int,
    path: string)

  datatype SetCookie = SetCookie(value: string, options: CookieOptions)

  /** The two cookies of a dashboard session: a random token, and the
      SHA-256 digest of that token that vouches for it. */
  const SessionCookie: string := "dashboard_session"
  const HashCookie: string := "dashboard_session_hash"

  /** The options both session cookies are set with: HTTP-only, `Secure` in
      production, same-site strict, on the whole site. */
  function SessionOptions(production: bool, maxAge: int): CookieOptions {
    CookieOptions(true, production, "strict", maxAge, "/")
  }

  /** The cookies a browser holds for the site and sends with a request. */
  type CookieJar = map<string, string>

  /** `request.cookies.get(name)?.value`. */
  function CookieValue(jar: CookieJar, name: string): (v: Option<string>)
    ensures v.Some? <==> name in jar
  {
    if name in jar then Some(jar[name]) else None
  }

  /** The `Set-Cookie` headers a response will carry, built up by
      `response.cookies.set`. A later call for the same name replaces the
      earlier one. */
  class ResponseCookies {
    var pending: map<string, SetCookie>

    constructor ()
      ensures pending == map[]
    {
      pending := map[];
    }

    method Set(name: string, value: string, options: CookieOptions)
      modifies this
      ensures pending == old(pending)[name := SetCookie(value, options)]
    {
      pending := pending[name := SetCookie(value, options)];
    }
  }

  /** The browser's jar after it receives a response: a cookie with a
      positive Max-Age is stored, one with Max-Age zero or less is deleted
      (section 5.2.2 of RFC 6265), and cookies the response does not
      mention are kept. */
  function ApplyCookies(jar: CookieJar, sets: map<string, SetCookie>): (r: CookieJar)
    ensures forall n | n in sets :: (n in r <==> sets[n].options.maxAge > 0)
    ensures forall n | n in sets && n in r :: r[n] == sets[n].value
    ensures forall n | n !in sets :: (n in r <==> n in jar)
    ensures forall n | n !in sets && n in jar :: r[n] == jar[n]
  {
    map n | n in jar.Keys + sets.Keys && (n in sets ==> sets[n].options.maxAge > 0) ::
      if n in sets then sets[n].value else jar[n]
  }

  /** A response without cookies leaves the jar alone. */
  lemma ApplyNothing(jar: CookieJar)
    ensures ApplyCookies(jar, map[]) == jar
  {
  }
}
