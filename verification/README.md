# Metanoia message moderation, modelled in Dafny

Metanoia is a small site where people share a short "metanoia moment". A
moment comes in through the web form or by SMS and is stored as a
*pending* message. A moderator logs in to a dashboard and sets each
message's status. A public page scrolls the approved messages in three
rows. This project models that slice of the site:

- **The sanitizer** (`lib/sanitize.ts`). It decodes HTML entities, removes
  script and style blocks and then every tag, removes dangerous patterns,
  normalises whitespace and truncates. `sanitizeName` also keeps only
  name characters. The model proves:
  - the length bounds;
  - that no `<` is followed later by `>`;
  - the whitespace shape of the result;
  - that each entity is decoded in one pass;
  - that a block is removed exactly up to its first closing tag.
- **The session gate**. The login route opens a session by setting two
  cookies: a random token and its SHA-256 digest. The check route and the
  messages route accept exactly a matching pair. The logout route clears
  both. The browser's cookie jar is carried from one route to the next, so
  the model can prove that "log in, then check" succeeds and that "log out,
  then check" fails.
- **Moderation**:
  - the authenticated `PATCH /api/messages`, over a class that models the
    `messages` table;
  - the dashboard's local toggle, filter and counters.

  The invariant "`approved_at` is set exactly on approved messages" is
  proved to survive both.
- **Ingestion**:
  - the web route `POST /api/submit` and the SMS webhook, including the
    signature check written for the webhook;
  - the submission form's client-side checks, state and character clamp.
- **The public page**. The approved fixture messages are dealt round-robin
  into three rows, and each row is drawn twice so that its scroll can loop.

The modules follow the source files:
- `Sanitize`;
- `LoginRoute`, `CheckRoute`, `LogoutRoute` and `SessionGate`, which
  combines them;
- `MessagesRoute` and `Store`, which models the database table;
- `SubmitRoute` and `TwilioWebhook`;
- `SubmitPage`, `DashboardPage`, `MessagesPage` and `MockData`;
- `Types`, for the shared `Message` record.

Supporting modules:
- `JsText` holds JavaScript's `\s`, `trim`, `slice` and case-insensitive
  matching.
- `Encoding` holds hex and UTF-8.
- `Order` holds string order and sorting.
- `Http` holds request bodies, responses and cookies.

The model takes these as parameters:
- the SHA-256 digest (a function into 64-digit lower-case hex strings);
- HMAC-SHA1 in base64;
- the 32 random bytes;
- the current time;
- `toLowerCase`;
- the Unicode letter and number classes;
- the configured passwords and tokens;
- whether the deployment is production;
- how each database request turns out: succeeds, fails, or writes without
  returning a row;
- the id and creation time the database assigns;
- what `fetch` returns to the form.

The model follows the code as written. The code has no honeypot field,
no rate limit, and no phone-number normalisation. Neither submission route calls the sanitizer: the web route
stores `message.trim()` and the webhook stores `body.trim()`. The webhook
never calls its signature check, because the call is commented out. So the
sanitizer and the signature check are modelled as standalone functions.

## Model

| member | source | states |
|---|---|---|
| JsText.JsTrim | lib/sanitize.ts:75 | `trim` yields the contiguous part of the text after the leading whitespace, followed in the text by whitespace only; it is empty exactly when the text is all whitespace, otherwise neither starts nor ends with whitespace, and text with no whitespace at either end is its own trim |
| JsText.TrimIdempotent | app/api/submit/route.ts:12 | trimming twice is trimming once |
| JsText.JsSliceTo | lib/sanitize.ts:107 | `slice(0, end)` is a prefix of the text with the length JavaScript gives it, for a negative `end` too |
| Sanitize.ReplaceAllCI | lib/sanitize.ts:24 | one case-insensitive left-to-right pass that replaces each occurrence of an entity by its character never lengthens the text |
| Sanitize.DecodeEntities | lib/sanitize.ts:21-27 | decoding never lengthens the text |
| Sanitize.DecodeHtmlEntities | lib/sanitize.ts:21-27 | the loop over `HTML_ENTITIES` leaves exactly the text with every entry applied, one pass each, in table order |
| Sanitize.DecodeWithoutAmpersand | lib/sanitize.ts:21-27 | decoding leaves text without `&` unchanged |
| SanitizeExamples.EntityDecodingIsOnePass | lib/sanitize.ts:7-27 | `&amp;lt;` decodes to `&lt;`, not to `<`: each entity gets a single pass |
| Sanitize.StripTags | lib/sanitize.ts:40 | removing `<...>` never lengthens the text, adds no character, and leaves no `<` followed later by `>` |
| Sanitize.StripHtmlTags | lib/sanitize.ts:32-43 | the three removals never lengthen the text and leave no `<` followed later by `>` |
| Sanitize.RemoveBlocks | lib/sanitize.ts:34-37 | removing `<script>` or `<style>` blocks never lengthens the text |
| Sanitize.BlockRemoved | lib/sanitize.ts:34-37 | a `<script`/`<style` block (any case, name followed by a non-word character) is cut out with its body up to the first closing tag; the `<`-free text before it is kept and the scan resumes after it |
| Sanitize.BlockAtHead | lib/sanitize.ts:34-37 | a block at the head of the text is matched whatever follows it |
| Sanitize.BlockThenUnclosedOpener | lib/sanitize.ts:34-37 | a complete block followed by a bare opening tag leaves exactly that opening tag |
| Sanitize.RemoveBlocksWithoutLt | lib/sanitize.ts:34-37 | block removal leaves `<`-free text unchanged |
| Sanitize.StripTagsWithoutGt | lib/sanitize.ts:40 | tag removal leaves `>`-free text unchanged |
| Sanitize.MatchLength | lib/sanitize.ts:52-64 | a match of a dangerous pattern is non-empty and lies within the text |
| Sanitize.RemoveAll | lib/sanitize.ts:52-64 | removing one pattern never lengthens the text, adds no character, and keeps the absence of a `<` ... `>` pair |
| Sanitize.RemoveDangerousPatterns | lib/sanitize.ts:48-67 | the five removals never lengthen the text and never create a `<` ... `>` pair |
| Sanitize.RemoveAllWithoutTerminator | lib/sanitize.ts:52-64 | a pattern cannot match text that lacks its final character (`:`, `=` or `(`) |
| Sanitize.DangerousPatternsNeedTerminators | lib/sanitize.ts:48-67 | text without `:`, `=` and `(` passes pattern removal unchanged |
| Sanitize.CollapseWs | lib/sanitize.ts:74 | after `replace(/\s+/g, " ")` the only whitespace is the plain space, never two in a row; a leading run becomes one space; no character is added and no `<` ... `>` pair is created |
| Sanitize.CollapseWsFixed | lib/sanitize.ts:74 | text whose whitespace is already single spaces is left unchanged |
| Sanitize.TrimOfSpaced | lib/sanitize.ts:75 | trimming single-spaced text keeps it single-spaced and leaves no space at either end |
| Sanitize.NormalizeWhitespace | lib/sanitize.ts:72-76 | the result has only plain spaces as whitespace, none adjacent and none at either end, is no longer than the input, and keeps the absence of a `<` ... `>` pair |
| Sanitize.NormalizeKeepsNormalText | lib/sanitize.ts:72-76 | already-normal text is left unchanged |
| Sanitize.Truncate | lib/sanitize.ts:105-108 | the cap keeps a prefix no longer than `maxLength` (for a non-negative `maxLength`), keeps text that fits, and keeps every property the earlier steps established |
| Sanitize.SanitizeUserInput | lib/sanitize.ts:86-111 | empty or non-string input gives `""`; the result fits `maxLength` (for a non-negative `maxLength`; 500 by default) and has no `<` followed later by `>`; its whitespace is single plain spaces and it does not start with one |
| Sanitize.SanitizeKeepsPlainText | lib/sanitize.ts:86-111 | text with none of the characters the rewrites key on (`&<>:=(`), single inner spaces and within `maxLength` comes out unchanged |
| Sanitize.KeepNameChars | lib/sanitize.ts:127 | only letters, numbers, whitespace, `-`, `'` and `.` remain, every such character of the text is kept, and text made only of them is unchanged |
| Sanitize.KeepNameCharsCounts | lib/sanitize.ts:127 | each name character is kept exactly as often as it occurs, and every other character is gone |
| Sanitize.KeepNameCharsInOrder | lib/sanitize.ts:127 | the kept characters are a subsequence of the text: their order is kept |
| Sanitize.TrimKeepsNonWhitespace | lib/sanitize.ts:129 | `trim` keeps every character that is not whitespace |
| Sanitize.NameFilter | lib/sanitize.ts:127-129 | after the filter and `trim`, only name characters remain, every name character of the input that is not whitespace survives, there is no whitespace at either end, and a name made of name characters and not padded is unchanged |
| Sanitize.SanitizeName | lib/sanitize.ts:116-130 | empty or non-string input gives `""`; the result still fits `maxLength` (for a non-negative `maxLength`; 100 by default) |
| Sanitize.DefaultLimits | lib/sanitize.ts:86-116 | called without a limit, `sanitizeUserInput` keeps at most 500 characters and `sanitizeName` at most 100 |
| Sanitize.SanitizeNameKeepsPlainName | lib/sanitize.ts:117-130 | a plain name made of name characters, with single inner spaces and within `maxLength`, comes out of `sanitizeName` unchanged |
| Sanitize.SanitizeNameShape | lib/sanitize.ts:117-130 | `sanitizeName`'s result holds only name characters, its only whitespace is the plain space, and it has none at either end |
| Encoding.ToHex | app/api/auth/login/route.ts:9 | hex rendering gives two lower-case hex digits per byte |
| Encoding.HexValue | app/api/auth/login/route.ts:9 | reading a hex digit inverts writing it |
| Encoding.HexRoundTrip | app/api/auth/login/route.ts:8-10 | reading the hex text back gives the bytes: hex rendering loses nothing |
| Encoding.Utf8CharInjective | app/api/auth/login/route.ts:35-36 | distinct characters have distinct UTF-8 encodings |
| Encoding.Utf8Injective | app/api/auth/login/route.ts:35-41 | distinct strings have distinct UTF-8 byte strings |
| Types.ParseStatus | lib/types.ts:2 | only the three status names are accepted, and each reads back to its name |
| Types.StatusNameRoundTrip | lib/types.ts:2 | every status survives writing and reading its name |
| Types.WithStatus | app/dashboard/page.tsx:137-139 | `filter(m => m.status === s)` keeps exactly the messages with that status |
| Types.WithStatusIsSubsequence | app/dashboard/page.tsx:129-132 | filtering keeps the original order |
| Types.IsSubsequenceReflexive | app/dashboard/page.tsx:130 | the "all" filter keeps the original order too |
| Types.WithStatusIdempotent | lib/mockData.ts:101-103 | filtering twice by one status is filtering once |
| Types.WithStatusOfUniform | lib/mockData.ts:101-103 | a list with only status `s` passes the `s` filter unchanged |
| Types.StatusCountsAddUp | app/dashboard/page.tsx:135-140 | the three status filters split any list |
| Order.InsertBy | app/api/twilio/webhook/route.ts:109 | inserting into a sorted list keeps it sorted and adds exactly that element |
| Order.SortBy | app/api/twilio/webhook/route.ts:109 | sorting yields a permutation in ascending (or descending) string order |
| Order.SortedStringsUnique | app/api/twilio/webhook/route.ts:109 | two ascending orderings of the same strings are the same sequence |
| Store.IndexOf | app/api/messages/route.ts:98 | `eq("id", id)` finds the row with that id, or reports that none has it |
| Store.SetStatus | app/api/messages/route.ts:95-100 | the row with the id gets the new status and approval time; every other row and field is unchanged; ids stay distinct |
| Store.SetStatusKeepsApprovedAt | app/api/messages/route.ts:90-100 | an update consistent on its row keeps the approval-time invariant on the whole table |
| Store.NewestFirst | app/api/messages/route.ts:35-38 | the select returns every row, newest `created_at` first |
| Store.MessageTable.Insert | app/api/submit/route.ts:51-55 | a failed insert writes nothing; otherwise exactly one row is appended, with no approval time; the reply carries the row unless none came back |
| Store.MessageTable.Update | app/api/messages/route.ts:95-100 | a failed update, or an id no row has, writes nothing; otherwise the table becomes `SetStatus` of the old table and the reply carries the updated row |
| Http.CookieValue | app/api/auth/check/route.ts:6-7 | `cookies.get(name)?.value` is present exactly when the browser sent that cookie |
| Http.ResponseCookies.Set | app/api/auth/login/route.ts:60-66 | `cookies.set` records the cookie, replacing an earlier one of the same name |
| Http.ApplyCookies | app/api/auth/logout/route.ts:10-16 | the browser stores a cookie with positive Max-Age, deletes one with Max-Age 0, and keeps the ones not mentioned |
| Http.ApplyNothing | app/api/auth/login/route.ts:43-48 | a response without cookies leaves the jar alone |
| LoginRoute.SessionToken | app/api/auth/login/route.ts:8-10 | the token is 64 lower-case hex digits and encodes the 32 random bytes exactly |
| LoginRoute.PasswordMatches | app/api/auth/login/route.ts:35-41 | the length check plus `timingSafeEqual` on UTF-8 bytes accepts exactly the configured password, for strings of Unicode scalar values |
| LoginRoute.CheckLogin | app/api/auth/login/route.ts:12-48 | checks in order: a body that cannot be destructured is 500, an unset password is 500 whatever was supplied, a missing or non-string password is 400, a wrong one is 401 "Invalid password"; accepted exactly for the configured password |
| LoginRoute.LoginCookies | app/api/auth/login/route.ts:43-77 | a rejected login sets no cookie; an accepted one sets exactly the two session cookies, the token being the hex form of the random bytes and the other cookie its digest |
| LoginRoute.SessionCookies | app/api/auth/login/route.ts:60-77 | the session cookie holds the token and the hash cookie holds the digest of that same token, both HTTP-only, strict, path `/`, for 86400 seconds |
| LoginRoute.Login | app/api/auth/login/route.ts:12-87 | a rejected login answers the check's response and sets no cookie; an accepted one answers 200 `{success: true}` with the two session cookies |
| CheckRoute.CheckSession | app/api/auth/check/route.ts:4-38 | always 200; a missing or empty cookie gives `authenticated: false`; otherwise authenticated exactly when the digest of the token equals the stored hash |
| LogoutRoute.ClearedCookies | app/api/auth/logout/route.ts:10-24 | both session cookies are set empty with Max-Age 0 |
| LogoutRoute.Logout | app/api/auth/logout/route.ts:3-27 | always 200 `{success: true}` with both cookies cleared |
| SessionGate.CheckAgreesWithIsAuthenticated | app/api/auth/check/route.ts:6-30 | the check route and the messages route reach the same session decision |
| SessionGate.LoginOpensSession | app/api/auth/login/route.ts:60-77 | after a successful login, whatever the jar held, the check route reports a session and the messages route admits the browser |
| SessionGate.RefusedLoginKeepsJar | app/api/auth/login/route.ts:43-48 | a refused login leaves the cookie jar unchanged |
| SessionGate.LogoutClosesSession | app/api/auth/logout/route.ts:10-24 | after logout both cookies are gone and neither route sees a session |
| SessionGate.EmptiedCookiesHaveNoSession | app/api/auth/check/route.ts:9-15 | cookies kept with empty values open no session |
| SessionGate.LogoutIdempotent | app/api/auth/logout/route.ts:3-27 | logging out twice is logging out once |
| SessionGate.SessionNeedsMatchingDigest | app/api/auth/check/route.ts:17-25 | a hash cookie that is not the digest of the token opens no session |
| MessagesRoute.IsAuthenticated | app/api/messages/route.ts:7-18 | true exactly when both cookies are present and non-empty and the digest of the token equals the stored hash |
| MessagesRoute.Get | app/api/messages/route.ts:21-56 | without a session 401 whatever the table holds; a store error gives 500; otherwise every row newest first, or `[]` when no data comes back |
| MessagesRoute.CheckPatch | app/api/messages/route.ts:59-86 | checks in order: session (401), body (500), both fields present (400), a known status (400); a request that passes carries a status named exactly as sent and, for a string id, that id |
| MessagesRoute.ApprovedAtFor | app/api/messages/route.ts:90-93 | the approval time is the current time exactly for an approval, and `null` otherwise |
| MessagesRoute.Patch | app/api/messages/route.ts:59-118 | a rejected request or failed update leaves the table as it was (500 "Failed to update message" on a store error or unknown id); a successful one changes only status and `approved_at` of the one row with the id; the approval-time invariant survives |
| SubmitRoute.CheckSubmission | app/api/submit/route.ts:6-32 | checks in order: body, name, message, then the untrimmed length (more than 500 is refused even if the trimmed text fits); accepted exactly when all pass, and then the trimmed message is non-empty and at most 500 long |
| SubmitRoute.NameKey | app/api/submit/route.ts:36-40 | the grouping key is 16 lower-case hex digits |
| SubmitRoute.NameKeyIgnoresSurroundingWhitespace | app/api/submit/route.ts:36-40 | whitespace around the name does not change its key |
| SubmitRoute.SameNormalNameSameKey | app/api/submit/route.ts:36-40 | names equal once trimmed and lower-cased share a key |
| SubmitRoute.Submit | app/api/submit/route.ts:6-78 | a refused request writes nothing; an accepted one appends exactly one pending row holding the trimmed message and the name key, or answers 500 with a generic text when the insert fails |
| SubmitRoute.StoredContentWithinLimit | app/api/submit/route.ts:27-49 | stored content is non-empty, at most 500 characters, and trimmed |
| TwilioWebhook.FormGet | app/api/twilio/webhook/route.ts:11-12 | `formData.get` yields the first value sent under the name, or nothing when the name is absent |
| TwilioWebhook.PhoneKey | app/api/twilio/webhook/route.ts:78-80 | the sender key is 16 lower-case hex digits of the digest of the raw `From` |
| TwilioWebhook.RequiredFields | app/api/twilio/webhook/route.ts:11-18 | both fields are there exactly when `Body` and `From` are non-empty |
| TwilioWebhook.Receive | app/api/twilio/webhook/route.ts:7-75 | missing fields give 400 and write nothing; a failed insert gives 500 and writes nothing; otherwise one pending row with the trimmed text and the sender key is appended, and the answer is the TwiML acknowledgment, or 500 when no row came back |
| TwilioWebhook.Params | app/api/twilio/webhook/route.ts:103-106 | assigning to `__proto__` adds no key |
| TwilioWebhook.ParamKeys | app/api/twilio/webhook/route.ts:103-109 | the keys of the parameter record, each once |
| TwilioWebhook.SortedKeys | app/api/twilio/webhook/route.ts:109 | the parameter names in ascending order, each once |
| TwilioWebhook.SignatureDecision | app/api/twilio/webhook/route.ts:84-122 | no configured token accepts everything; a token without a signature rejects; otherwise valid exactly when the signature equals the HMAC of the base string |
| TwilioWebhook.CollectParams | app/api/twilio/webhook/route.ts:103-106 | the first loop builds exactly the parameter record and its key list |
| TwilioWebhook.AppendParams | app/api/twilio/webhook/route.ts:110-113 | the second loop yields the URL followed by name and value of each key in turn |
| TwilioWebhook.SignatureBase | app/api/twilio/webhook/route.ts:103-113 | the signed string starts with the URL, and is the URL alone when there are no parameters |
| TwilioWebhook.ValidateRequest | app/api/twilio/webhook/route.ts:84-122 | the function decides as `SignatureDecision` over the URL plus the sorted name/value pairs |
| TwilioWebhook.LastValueWins | app/api/twilio/webhook/route.ts:104-106 | the value signed for a name is the last one sent under it |
| TwilioWebhook.BaseDependsOnlyOnParams | app/api/twilio/webhook/route.ts:103-113 | the signed string depends only on the parameter record, not on field order or repeats |
| SubmitPage.ClientError | app/submit/page.tsx:60-73 | checks in order: name, message, length; the first failure's text; none exactly when all pass |
| SubmitPage.RequestError | app/submit/page.tsx:86-93 | no error after an ok reply; after any other reply the server's `error` text, or "Failed to submit" when there is none; after a thrown `Error` its message, and "Something went wrong" for anything else thrown |
| SubmitPage.ClientAcceptedPassesServer | app/submit/page.tsx:83 | whatever the form sends, the submit route accepts, and it stores the trimmed message |
| SubmitPage.ClampedMessageNeverTooLong | app/submit/page.tsx:282 | text typed through the clamped box never triggers the length error |
| SubmitPage.SubmitForm.constructor | app/submit/page.tsx:19-27 | the form starts empty, idle, on the first video |
| SubmitPage.SubmitForm.TypeName | app/submit/page.tsx:271 | the name becomes the typed text; nothing else changes |
| SubmitPage.SubmitForm.TypeMessage | app/submit/page.tsx:282 | the state keeps the first 500 characters of the typed text, and all of it when it fits |
| SubmitPage.SubmitForm.VideoEnded | app/submit/page.tsx:43-45 | the next video, wrapping to the first; the index stays in [0, 5) |
| SubmitPage.SubmitForm.HandleSubmit | app/submit/page.tsx:56-97 | a failed check sets its error and sends nothing; otherwise the trimmed fields are sent, `isSubmitted` is set only after an ok reply, the error follows the reply, and `isSubmitting` ends false |
| DashboardPage.PasswordGate.Type | app/dashboard/page.tsx:54-57 | typing replaces the password and clears the error |
| DashboardPage.PasswordGate.HandleSubmit | app/dashboard/page.tsx:17-27 | success exactly when the input equals the configured password; otherwise the error shows, the field shakes and is emptied |
| DashboardPage.PasswordGate.ShakeTimerFired | app/dashboard/page.tsx:24 | the shake ends; nothing else changes |
| DashboardPage.Toggle | app/dashboard/page.tsx:116 | approved becomes hidden; pending and hidden become approved |
| DashboardPage.ToggleTwice | app/dashboard/page.tsx:116 | two toggles restore approved or hidden, and send pending to hidden |
| DashboardPage.Toggled | app/dashboard/page.tsx:115-121 | the toggled message has an approval time (the current one) exactly when it becomes approved; its other fields stay |
| DashboardPage.ToggleById | app/dashboard/page.tsx:112-126 | messages with the id are toggled, every other one is kept, and length and order stay |
| DashboardPage.ToggleKeepsApprovedAt | app/dashboard/page.tsx:113-124 | toggling keeps the approval-time invariant of the list |
| DashboardPage.ToggleByIdTwice | app/dashboard/page.tsx:112-126 | toggling one id twice restores approved or hidden statuses, sends pending to hidden, and moves nothing else |
| DashboardPage.FilterMessages | app/dashboard/page.tsx:129-132 | "all" keeps everything; a status keeps exactly the messages with it; order is kept |
| DashboardPage.CountsOf | app/dashboard/page.tsx:135-140 | the counters are the list length and the size of each status filter, and the three add up to the total |
| DashboardPage.Dashboard.constructor | app/dashboard/page.tsx:100-104 | the dashboard starts locked, on the fixture, under "all", with the invariant |
| DashboardPage.Dashboard.Unlock | app/dashboard/page.tsx:108 | the gate's success unlocks; nothing else changes |
| DashboardPage.Dashboard.SelectFilter | app/dashboard/page.tsx:203 | on an unlocked dashboard, a filter tab sets the filter; nothing else changes |
| DashboardPage.Dashboard.ToggleVisibility | app/dashboard/page.tsx:112-126 | on an unlocked dashboard, the list becomes `ToggleById` of the old list and keeps the approval-time invariant |
| MockData.GetAllMessages | lib/mockData.ts:106-108 | the fixture holds nine messages |
| MockData.GetApprovedMessages | lib/mockData.ts:101-103 | only approved messages, in fixture order |
| MockData.FixtureInvariants | lib/mockData.ts:25-98 | every fixture message is approved, has an approval time, and has its own id |
| MockData.ApprovedIsEverything | lib/mockData.ts:101-103 | the approved list is the whole fixture |
| MockData.ApprovedFilterIdempotent | lib/mockData.ts:101-103 | filtering the approved list again changes nothing |
| MockData.FixtureLengths | lib/mockData.ts:3-22 | the sample texts are 502, 513, 494, 389, 348, 337, 240, 202 and 213 characters long |
| MessagesPage.Row | app/messages/page.tsx:13-15 | a row is never longer than the list it is dealt from |
| MessagesPage.RowLength | app/messages/page.tsx:13-15 | row `r` holds `(n + 2 - r) / 3` of the `n` items |
| MessagesPage.RowIndex | app/messages/page.tsx:13-15 | the `k`-th item of row `r` is item `3k + r` |
| MessagesPage.ItemPlacement | app/messages/page.tsx:13-15 | item `i` lands in row `i mod 3` at place `i / 3` |
| MessagesPage.RowsShareItems | app/messages/page.tsx:13-15 | the rows' lengths add up to the total, with row 1 ≥ row 2 ≥ row 3 ≥ row 1 − 1 |
| MessagesPage.Rendered | app/messages/page.tsx:99 | the drawn row has twice the length, and card `k` shows item `k` modulo the row's length |
| MessagesPage.CardSource | app/messages/page.tsx:97-121 | card `k` of row `r` shows message `3j + r` of the approved list, where `j` is `k` modulo the row's length |
| MessagesPage.OnlyApprovedShown | app/messages/page.tsx:10-15 | every card on the page shows an approved message |

## Left out

- The database client, logging, and request and cookie access are not modelled as I/O. What they deliver is a parameter: cookies as a jar map, bodies as parsed values, and the database outcome as `Fault`.
- Cryptography, randomness and the clock are parameters: SHA-256, HMAC-SHA1 with base64, `randomBytes`, and `new Date().toISOString()`.
- `toLowerCase` and the `\p{L}`/`\p{N}` classes are parameters. Unicode tables are not modelled.
- Strings are sequences of Unicode scalar values. JavaScript counts UTF-16 code units instead. `length`, `slice`, the 500-character limits, and the default sort order all differ on characters outside the Basic Multilingual Plane.
- LoginRoute.PasswordMatches: holds for strings of scalar values only. A JSON body can carry a lone surrogate (`"\ud800"`), which `Buffer.from` encodes as the bytes EF BF BD, so the source also accepts that string where `"\uFFFD"` is configured.
- Exceptions are modelled only where a request body cannot be parsed (the JSON `Unparsable` or `null` cases, and an unreadable form). A database client that throws is not modelled.
- When a non-ok reply's body is not JSON, the form's `response.json()` throws. The model covers this case as a `Thrown` fetch outcome.
- The store models only insert, update-by-id and select-all. An id that is not a valid UUID, or a non-string PATCH id, is treated like an id no row has, so the model answers 500 because `.single()` fails. How the database client turns a non-string id into a filter is not modelled: a one-element array holding an existing id may well select that row.
- Store.NewestFirst: the database's order among rows with equal `created_at` is unspecified. The model fixes one order, and its contract states only the permutation and the descending order.
- Store.NewestFirst: orders `created_at` as strings. That is the time order only while the database returns every timestamp in one fixed-width ISO 8601 format, which the model takes as given.
- Sanitize.RemoveDangerousPatterns: does not state that no dangerous pattern is left. Each pattern is removed in one left-to-right pass, so removing one match can join two fragments into a new one (`javajavascript:script:` leaves `javascript:`). The source behaves the same way.
- Sanitize.SanitizeUserInput: `maxLength` is taken as an integer (in `Sanitize.SanitizeName` and `Sanitize.Truncate` too). NaN, fractional and infinite values are not modelled: in the source a fraction is truncated by `slice`, and NaN or `Infinity` leaves the text uncapped. A negative `maxLength` is modelled as `slice` treats it, dropping characters from the end, and the length bound is stated only for a non-negative one.
- Sanitize.SanitizeName: its contract gives only the bounds. The character and whitespace shape is stated by `Sanitize.SanitizeNameShape`, and `Sanitize.SanitizeNameKeepsPlainName` shows that a plain name survives. That a name character in arbitrary input survives is not stated for the whole function: the earlier general sanitization may remove it (a pattern match, a tag, truncation); `Sanitize.NameFilter` states it for the filter and `trim`.
- SubmitPage.SubmitForm.HandleSubmit: the handler is one atomic step. While the request is in flight, `isSubmitting` is true and the button is disabled. That interval is not modelled.
- The `source` field of `Message` (`lib/types.ts:15`) is not modelled, because no core code reads it.
- Rendering, animation, video playback, mobile detection, date formatting and the delete button are left out. The delete button has no handler.
- The middleware and the `lib/supabase` clients are not part of this model.
