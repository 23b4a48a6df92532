/**
 * `POST /api/twilio/webhook` (app/api/twilio/webhook/route.ts): an SMS
 * forwarded by the messaging provider as form fields. It checks that the
 * text and the sender are there, keys the message by a digest of the sender
 * and inserts one pending message, answering with a fixed TwiML document.
 *
 * The file also holds the signature check the provider's requests can be
 * verified with. The handler never calls it.
 */
module TwilioWebhook {
  import opened Wrappers
  import opened JsText
  import opened Encoding
  import opened Types
  import opened Store
  import opened Http
  import Order

  /** What `await request.formData()` yields: a parse failure, or the
      fields in the order they were sent (a name may repeat). */
  datatype FormBody = Unreadable | Form(entries: seq<(string, string)>)

  /** `formData.get(name)`: the first value sent under `name`. */
  function FormGet(entries: seq<(string, string)>, name: string): (r: Option<string>)
    ensures r.None? <==> forall i | 0 <= i < |entries| :: entries[i].0 != name
    ensures r.Some? ==> exists i | 0 <= i < |entries| ::
      entries[i] == (name, r.value) && forall j | 0 <= j < i :: entries[j].0 != name
  {
    if entries == [] then None
    else if entries[0].0 == name then
      assert entries[0] == (name, entries[0].1);
      Some(entries[0].1)
    else
      var r := FormGet(entries[1..], name);
      if r.Some? then
        ghost var i :| 0 <= i < |entries[1..]| && entries[1..][i] == (name, r.value)
          && forall j | 0 <= j < i :: entries[1..][j].0 != name;
        assert entries[i + 1] == (name, r.value);
        assert forall j | 0 <= j < i + 1 :: entries[j].0 != name by {
          forall j | 0 <= j < i + 1 ensures entries[j].0 != name {
            if j > 0 {
              assert entries[j] == entries[1..][j - 1];
            }
          }
        }
        r
      else r
  }

  /** `hashPhoneNumber`: the first 16 hex digits of the digest of the sender
      exactly as received. */
  function PhoneKey(from: string, sha: string -> HexDigest): (k: string)
    ensures |k| == 16 && IsLowerHexString(k)
  {
    sha(from)[..16]
  }

  /** The TwiML acknowledgment sent back on success. */
  const Acknowledgment: string :=
    "<?xml version=\"1.0\" encoding=\"UTF-8\"?>\n<Response>\n  <Message>Thanks for your message! It's being reviewed.</Message>\n</Response>"

  /** Both required fields as non-empty strings, or nothing. */
  function RequiredFields(form: seq<(string, string)>): (r: Option<(string, string)>)
    ensures r.Some? <==> FormGet(form, "Body").GetOr("") != "" && FormGet(form, "From").GetOr("") != ""
    ensures r.Some? ==> FormGet(form, "Body") == Some(r.value.0) && FormGet(form, "From") == Some(r.value.1)
  {
    var body, from := FormGet(form, "Body"), FormGet(form, "From");
    if body.GetOr("") == "" || from.GetOr("") == "" then None else Some((body.value, from.value))
  }

  /** The handler. Missing fields write nothing. The stored content is the
      trimmed text, which may be empty (a text of blanks) and has no length
      limit. A failed insert, and an insert that hands back no row although
      it wrote one, both answer 500. */
  method Receive(table: MessageTable, form: FormBody, sha: string -> HexDigest, id: string, now: string, fault: Fault)
    returns (res: Response)
    requires table.Valid()
    modifies table
    ensures table.Valid()
    ensures AllApprovedAtConsistent(old(table.rows)) ==> AllApprovedAtConsistent(table.rows)
    ensures form.Unreadable? ==>
      res == Response(500, PlainText("Internal server error")) && table.rows == old(table.rows)
    ensures form.Form? && RequiredFields(form.entries).None? ==>
      res == Response(400, PlainText("Missing required fields")) && table.rows == old(table.rows)
    ensures form.Form? && RequiredFields(form.entries).Some? && (fault == Fails || IndexOf(old(table.rows), id).Some?) ==>
      res == Response(500, PlainText("Database error")) && table.rows == old(table.rows)
    ensures form.Form? && RequiredFields(form.entries).Some? && fault != Fails && IndexOf(old(table.rows), id).None? ==>
      var (body, from) := RequiredFields(form.entries).value;
      table.rows == old(table.rows) + [Message(id, PhoneKey(from, sha), JsTrim(body), Pending, now, None)]
      && res == (if fault == NoData then Response(500, PlainText("Database error")) else Response(200, Xml(Acknowledgment)))
  {
    if form.Unreadable? {
      return Response(500, PlainText("Internal server error"));
    }
    var fields := RequiredFields(form.entries);
    if fields.None? {
      return Response(400, PlainText("Missing required fields"));
    }
    var (body, from) := fields.value;
    var phoneHash := PhoneKey(from, sha);
    var reply := table.Insert(phoneHash, JsTrim(body), Pending, id, now, fault);
    if reply.InsertFailed? {
      return Response(500, PlainText("Database error"));
    }
    if reply.row.None? {
      return Response(500, PlainText("Database error"));
    }
    res := Response(200, Xml(Acknowledgment));
  }

  // ---------------------------------------------------------------------
  // Request signature (`validateTwilioRequest`)
  // ---------------------------------------------------------------------

  /** The `params` record after `params[key] = value` for each field in
      order: a later value overwrites an earlier one, and assigning to
      `__proto__` (a string, so the prototype is left alone) adds no key. */
  function Params(entries: seq<(string, string)>): (p: map<string, string>)
    ensures "__proto__" !in p
  {
    if entries == [] then map[]
    else
      var (key, value) := entries[|entries| - 1];
      var p := Params(entries[..|entries| - 1]);
      if key == "__proto__" then p else p[key := value]
  }

  /** The keys of `params` in the order they were first assigned, each once. */
  function ParamKeys(entries: seq<(string, string)>): (keys: seq<string>)
    ensures forall k :: k in keys <==> k in Params(entries)
    ensures forall i, j | 0 <= i < j < |keys| :: keys[i] != keys[j]
  {
    if entries == [] then []
    else
      var (key, value) := entries[|entries| - 1];
      var keys := ParamKeys(entries[..|entries| - 1]);
      if key == "__proto__" || key in keys then keys else keys + [key]
  }

  /** `key + params[key]` for each key, left to right. */
  function Joined(keys: seq<string>, params: map<string, string>): string
    requires forall k | k in keys :: k in params
  {
    if keys == [] then ""
    else Joined(keys[..|keys| - 1], params) + keys[|keys| - 1] + params[keys[|keys| - 1]]
  }

  /** `Object.keys(params).sort()`: JavaScript's default sort, ascending by
      character. */
  function SortedKeys(entries: seq<(string, string)>): (keys: seq<string>)
    ensures multiset(keys) == multiset(ParamKeys(entries))
    ensures Order.SortedBy(keys, (k: string) => k, false)
    ensures forall k :: k in keys <==> k in Params(entries)
  {
    var keys := Order.SortBy(ParamKeys(entries), (k: string) => k, false);
    assert forall k :: k in keys <==> k in multiset(ParamKeys(entries));
    keys
  }

  /** The string the provider signs: the URL, then every parameter name
      followed by its value, names in ascending order. */
  function SignatureBase(url: string, entries: seq<(string, string)>): (b: string)
    ensures |url| <= |b| && b[..|url|] == url
    ensures entries == [] ==> b == url
  {
    url + Joined(SortedKeys(entries), Params(entries))
  }

  /** The decision: no configured token accepts everything, a token without
      a signature header rejects, and otherwise the header must equal the
      HMAC-SHA1 of the base string under the token, in base64. */
  function SignatureDecision(authToken: Option<string>, signature: Option<string>, base: string,
                             hmac: (string, string) -> string): (valid: bool)
    ensures authToken.GetOr("") == "" ==> valid
    ensures authToken.GetOr("") != "" && signature.GetOr("") == "" ==> !valid
    ensures authToken.GetOr("") != "" && signature.GetOr("") != "" ==>
      (valid <==> signature.value == hmac(authToken.value, base))
  {
    if authToken.GetOr("") == "" then true
    else if signature.GetOr("") == "" then false
    else signature.value == hmac(authToken.value, base)
  }

  /** The first loop of `validateTwilioRequest`: `params[key] = value` for
      every field, remembering the order in which keys first appear. */
  method CollectParams(entries: seq<(string, string)>) returns (params: map<string, string>, keys: seq<string>)
    ensures params == Params(entries) && keys == ParamKeys(entries)
  {
    params, keys := map[], [];
    for i := 0 to |entries|
      invariant params == Params(entries[..i])
      invariant keys == ParamKeys(entries[..i])
    {
      assert entries[..i + 1][..i] == entries[..i];
      var (key, value) := entries[i];
      if key != "__proto__" {
        if key !in params {
          keys := keys + [key];
        }
        params := params[key := value];
      }
    }
    assert entries[..|entries|] == entries;
  }

  /** The second loop: `paramString += key + params[key]` over the sorted names. */
  method AppendParams(url: string, sortedKeys: seq<string>, params: map<string, string>) returns (paramString: string)
    requires forall k | k in sortedKeys :: k in params
    ensures paramString == url + Joined(sortedKeys, params)
  {
    paramString := url;
    for j := 0 to |sortedKeys|
      invariant paramString == url + Joined(sortedKeys[..j], params)
    {
      assert sortedKeys[..j + 1][..j] == sortedKeys[..j];
      paramString := paramString + sortedKeys[j] + params[sortedKeys[j]];
    }
    assert sortedKeys[..|sortedKeys|] == sortedKeys;
  }

  /** `validateTwilioRequest`. */
  method ValidateRequest(authToken: Option<string>, signature: Option<string>, url: string,
                         entries: seq<(string, string)>, hmac: (string, string) -> string)
    returns (valid: bool)
    ensures valid == SignatureDecision(authToken, signature, SignatureBase(url, entries), hmac)
  {
    if authToken.GetOr("") == "" {
      return true;
    }
    if signature.GetOr("") == "" {
      return false;
    }
    var params, keys := CollectParams(entries);
    var sortedKeys := Order.SortBy(keys, (k: string) => k, false);
    assert sortedKeys == SortedKeys(entries);
    var paramString := AppendParams(url, sortedKeys, params);
    valid := signature.value == hmac(authToken.value, paramString);
  }

  /** A later field overwrites an earlier one: the value that counts is the
      last one sent under the name. */
  lemma {:induction false} LastValueWins(before: seq<(string, string)>, key: string, value: string,
                                         after: seq<(string, string)>)
    requires key != "__proto__"
    requires forall i | 0 <= i < |after| :: after[i].0 != key
    ensures key in Params(before + [(key, value)] + after)
    ensures Params(before + [(key, value)] + after)[key] == value
    decreases |after|
  {
    var e := before + [(key, value)] + after;
    if after == [] {
      assert e[..|e| - 1] == before;
    } else {
      var shorter := after[..|after| - 1];
      assert e[..|e| - 1] == before + [(key, value)] + shorter;
      LastValueWins(before, key, value, shorter);
    }
  }

  /** A sequence without repeats holds each of its elements once. */
  lemma {:induction false} DistinctCounts(keys: seq<string>)
    requires forall i, j | 0 <= i < j < |keys| :: keys[i] != keys[j]
    ensures forall k :: multiset(keys)[k] == if k in keys then 1 else 0
    decreases |keys|
  {
    if keys != [] {
      DistinctCounts(keys[1..]);
      assert keys == [keys[0]] + keys[1..];
      assert keys[0] !in keys[1..];
    }
  }

  /** The signed string depends only on the resulting parameter record, not
      on the order or the repetitions in which the fields arrived. */
  lemma BaseDependsOnlyOnParams(url: string, e1: seq<(string, string)>, e2: seq<(string, string)>)
    requires Params(e1) == Params(e2)
    ensures SignatureBase(url, e1) == SignatureBase(url, e2)
  {
    DistinctCounts(ParamKeys(e1));
    DistinctCounts(ParamKeys(e2));
    assert multiset(ParamKeys(e1)) == multiset(ParamKeys(e2));
    Order.SortedStringsUnique(SortedKeys(e1), SortedKeys(e2));
  }
}
