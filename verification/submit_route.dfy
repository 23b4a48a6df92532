/**
 * `POST /api/submit` (app/api/submit/route.ts): the web form's submission.
 * It validates the name and the message, derives a grouping key from the
 * name, and inserts one pending message. SHA-256 and `toLowerCase` are
 * parameters; the database assigns the id and the creation time.
 */
module SubmitRoute {
  import opened Wrappers
  import opened JsText
  import opened Encoding
  import opened Types
  import opened Store
  import opened Http

  /** The longest message the route accepts, counted before trimming. */
  const MaxMessageLength: int := 500

  /** `x && typeof x === "string" && x.trim()`: a string with something
      other than whitespace in it. */
  predicate HasText(f: Field) {
    f.Str? && JsTrim(f.text) != ""
  }

  datatype Submission = Refused(response: Response) | Accepted(name: string, message: string)

  /** The checks in order: body, name, message, then the untrimmed length of
      the message. The first failure answers. */
  function CheckSubmission(body: JsonBody): (r: Submission)
    ensures !body.Value? ==>
      r == Refused(Response(500, ErrorJson("Something went wrong. Please try again.")))
    ensures body.Value? && !HasText(Lookup(body.fields, "name")) ==>
      r == Refused(Response(400, ErrorJson("Name is required")))
    ensures body.Value? && HasText(Lookup(body.fields, "name")) && !HasText(Lookup(body.fields, "message")) ==>
      r == Refused(Response(400, ErrorJson("Message is required")))
    ensures (body.Value? && HasText(Lookup(body.fields, "name")) && HasText(Lookup(body.fields, "message"))
             && |Lookup(body.fields, "message").text| > MaxMessageLength) ==>
      r == Refused(Response(400, ErrorJson("Message must be 500 characters or less")))
    ensures r.Accepted? <==>
      body.Value? && HasText(Lookup(body.fields, "name")) && HasText(Lookup(body.fields, "message"))
      && |Lookup(body.fields, "message").text| <= MaxMessageLength
    ensures r.Accepted? ==>
      Lookup(body.fields, "name") == Str(r.name) && Lookup(body.fields, "message") == Str(r.message)
    ensures r.Accepted? ==> JsTrim(r.name) != "" && 1 <= |JsTrim(r.message)| <= MaxMessageLength
  {
    if !body.Value? then Refused(Response(500, ErrorJson("Something went wrong. Please try again.")))
    else
      var name, message := Lookup(body.fields, "name"), Lookup(body.fields, "message");
      if !HasText(name) then Refused(Response(400, ErrorJson("Name is required")))
      else if !HasText(message) then Refused(Response(400, ErrorJson("Message is required")))
      else if |message.text| > MaxMessageLength then
        Refused(Response(400, ErrorJson("Message must be 500 characters or less")))
      else Accepted(name.text, message.text)
  }

  /** The grouping key: the first 16 hex digits of the digest of the
      trimmed, lower-cased name. */
  function NameKey(name: string, sha: string -> HexDigest, toLower: string -> string): (k: string)
    ensures |k| == 16 && IsLowerHexString(k)
  {
    sha(toLower(JsTrim(name)))[..16]
  }

  /** Whitespace around a name does not change its key. */
  lemma NameKeyIgnoresSurroundingWhitespace(name: string, sha: string -> HexDigest, toLower: string -> string)
    ensures NameKey(JsTrim(name), sha, toLower) == NameKey(name, sha, toLower)
  {
    TrimIdempotent(name);
  }

  /** Names that agree once trimmed and lower-cased share a key. */
  lemma SameNormalNameSameKey(a: string, b: string, sha: string -> HexDigest, toLower: string -> string)
    requires toLower(JsTrim(a)) == toLower(JsTrim(b))
    ensures NameKey(a, sha, toLower) == NameKey(b, sha, toLower)
  {
  }

  /** The handler: a refused request writes nothing; an accepted one inserts
      exactly one pending row holding the trimmed message. Only an insert
      error is reported; an insert that returns no row still answers 200. */
  method Submit(table: MessageTable, body: JsonBody, sha: string -> HexDigest, toLower: string -> string,
                id: string, now: string, fault: Fault)
    returns (res: Response)
    requires table.Valid()
    modifies table
    ensures table.Valid()
    ensures AllApprovedAtConsistent(old(table.rows)) ==> AllApprovedAtConsistent(table.rows)
    ensures CheckSubmission(body).Refused? ==>
      res == CheckSubmission(body).response && table.rows == old(table.rows)
    ensures CheckSubmission(body).Accepted? && (fault == Fails || IndexOf(old(table.rows), id).Some?) ==>
      res == Response(500, ErrorJson("Failed to save your moment. Please try again."))
      && table.rows == old(table.rows)
    ensures CheckSubmission(body).Accepted? && fault != Fails && IndexOf(old(table.rows), id).None? ==>
      var s := CheckSubmission(body);
      table.rows == old(table.rows) + [Message(id, NameKey(s.name, sha, toLower), JsTrim(s.message), Pending, now, None)]
      && res == Response(200, SubmittedJson("Your moment has been submitted!"))
  {
    var s := CheckSubmission(body);
    if s.Refused? {
      return s.response;
    }
    var nameHash := NameKey(s.name, sha, toLower);
    var reply := table.Insert(nameHash, JsTrim(s.message), Pending, id, now, fault);
    if reply.InsertFailed? {
      return Response(500, ErrorJson("Failed to save your moment. Please try again."));
    }
    res := Response(200, SubmittedJson("Your moment has been submitted!"));
  }

  /** What the route stores is never empty and never longer than 500
      characters. */
  lemma StoredContentWithinLimit(body: JsonBody)
    requires CheckSubmission(body).Accepted?
    ensures var content := JsTrim(CheckSubmission(body).message);
      content != "" && |content| <= MaxMessageLength
      && !IsJsWhitespace(content[0]) && !IsJsWhitespace(content[|content| - 1])
  {
  }
}
