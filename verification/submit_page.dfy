/**
 * The submission page's form (app/submit/page.tsx): its state, the
 * character clamp on the message box, the background-video cycle and the
 * submit handler. What `fetch` comes back with is a parameter.
 */
module SubmitPage {
  import opened Wrappers
  import opened JsText
  import Http
  import SubmitRoute

  /** The background videos shown on small screens, played in turn. */
  const MobileVideos: seq<string> := ["/eyes.mov", "/laying.mov", "/beach.mov", "/outside.mov", "/water.mov"]

  const MaxMessageLength: int := 500

  /** How the request ended: thrown before a usable reply (`Some` message
      for an `Error`, `None` for anything else thrown), or a reply with its
      `ok` flag and the `error` text of its body (`""` when absent). */
  datatype FetchOutcome = Thrown(reason: Option<string>) | Replied(ok: bool, errorText: string)

  /** The form's own checks in order: name, message, length. `None` lets
      the request go out. */
  function ClientError(name: string, message: string): (e: Option<string>)
    ensures JsTrim(name) == "" ==> e == Some("Please enter your name")
    ensures JsTrim(name) != "" && JsTrim(message) == "" ==> e == Some("Please share your metanoia moment")
    ensures JsTrim(name) != "" && JsTrim(message) != "" && |message| > MaxMessageLength ==>
      e == Some("Message must be 500 characters or less")
    ensures e.None? <==> JsTrim(name) != "" && JsTrim(message) != "" && |message| <= MaxMessageLength
  {
    if JsTrim(name) == "" then Some("Please enter your name")
    else if JsTrim(message) == "" then Some("Please share your metanoia moment")
    else if |message| > MaxMessageLength then Some("Message must be 500 characters or less")
    else None
  }

  /** The error shown after a request that went out: none after an ok
      reply, the server's text or "Failed to submit" after any other reply,
      and the thrown message otherwise. */
  function RequestError(outcome: FetchOutcome): (e: string)
    ensures outcome.Replied? && outcome.ok ==> e == ""
    ensures outcome.Replied? && !outcome.ok && outcome.errorText != "" ==> e == outcome.errorText
    ensures outcome.Replied? && !outcome.ok && outcome.errorText == "" ==> e == "Failed to submit"
    ensures outcome.Replied? && !outcome.ok ==> e != ""
    ensures outcome.Thrown? && outcome.reason.Some? ==> e == outcome.reason.value
    ensures outcome == Thrown(None) ==> e == "Something went wrong"
  {
    match outcome
    case Replied(ok, text) => if ok then "" else if text != "" then text else "Failed to submit"
    case Thrown(reason) => reason.GetOr("Something went wrong")
  }

  /** A request the form lets through is accepted by `POST /api/submit`,
      which stores exactly the trimmed message. */
  lemma ClientAcceptedPassesServer(name: string, message: string)
    requires ClientError(name, message).None?
    ensures var body := Http.Value(map["name" := Http.Str(JsTrim(name)), "message" := Http.Str(JsTrim(message))]);
      SubmitRoute.CheckSubmission(body) == SubmitRoute.Accepted(JsTrim(name), JsTrim(message))
      && JsTrim(SubmitRoute.CheckSubmission(body).message) == JsTrim(message)
  {
    TrimIdempotent(name);
    TrimIdempotent(message);
    var body := Http.Value(map["name" := Http.Str(JsTrim(name)), "message" := Http.Str(JsTrim(message))]);
    assert Http.Lookup(body.fields, "name") == Http.Str(JsTrim(name));
    assert Http.Lookup(body.fields, "message") == Http.Str(JsTrim(message));
  }

  /** Through the clamped message box the length check can never fire. */
  lemma ClampedMessageNeverTooLong(name: string, typed: string)
    ensures ClientError(name, JsSliceTo(typed, MaxMessageLength)) != Some("Message must be 500 characters or less")
  {
  }

  class SubmitForm {
    var name: string
    var message: string
    var isSubmitting: bool
    var isSubmitted: bool
    var error: string
    var activeVideo: nat

    /** What the page keeps true between events: the clamp's bound and a
        playable video index. */
    predicate Valid()
      reads this
    {
      |message| <= MaxMessageLength && activeVideo < |MobileVideos|
    }

    constructor ()
      ensures name == "" && message == "" && error == ""
      ensures !isSubmitting && !isSubmitted && activeVideo == 0
      ensures Valid()
    {
      name, message, error := "", "", "";
      isSubmitting, isSubmitted := false, false;
      activeVideo := 0;
    }

    /** The name input's `onChange`. */
    method TypeName(value: string)
      modifies this
      ensures name == value
      ensures message == old(message) && error == old(error) && activeVideo == old(activeVideo)
      ensures isSubmitting == old(isSubmitting) && isSubmitted == old(isSubmitted)
      ensures old(Valid()) ==> Valid()
    {
      name := value;
    }

    /** The message box's `onChange`: `value.slice(0, 500)`, so the state
        keeps the first 500 characters of whatever was typed or pasted. */
    method TypeMessage(value: string)
      modifies this
      ensures message == JsSliceTo(value, MaxMessageLength)
      ensures |message| <= MaxMessageLength && message == value[..|message|]
      ensures |value| <= MaxMessageLength ==> message == value
      ensures name == old(name) && error == old(error) && activeVideo == old(activeVideo)
      ensures isSubmitting == old(isSubmitting) && isSubmitted == old(isSubmitted)
      ensures old(activeVideo) < |MobileVideos| ==> Valid()
    {
      message := JsSliceTo(value, MaxMessageLength);
    }

    /** `handleVideoEnded`: on to the next video, back to the first after the last. */
    method VideoEnded()
      modifies this
      ensures activeVideo == (old(activeVideo) + 1) % |MobileVideos|
      ensures activeVideo < |MobileVideos|
      ensures old(activeVideo) < |MobileVideos| - 1 ==> activeVideo == old(activeVideo) + 1
      ensures name == old(name) && message == old(message) && error == old(error)
      ensures isSubmitting == old(isSubmitting) && isSubmitted == old(isSubmitted)
      ensures old(Valid()) ==> Valid()
    {
      activeVideo := (activeVideo + 1) % |MobileVideos|;
    }

    /** `handleSubmit`. The error is cleared first; a failed check sets its
        message and sends nothing. Otherwise the trimmed name and message
        are sent (`sent`), `isSubmitted` is set only after an ok reply, and
        `isSubmitting` is false again once the handler ends. */
    method HandleSubmit(outcome: FetchOutcome) returns (sent: Option<(string, string)>)
      modifies this
      ensures name == old(name) && message == old(message) && activeVideo == old(activeVideo)
      ensures ClientError(old(name), old(message)).Some? ==>
        sent == None && error == ClientError(old(name), old(message)).value
        && isSubmitting == old(isSubmitting) && isSubmitted == old(isSubmitted)
      ensures ClientError(old(name), old(message)).None? ==>
        sent == Some((JsTrim(old(name)), JsTrim(old(message))))
        && !isSubmitting
        && error == RequestError(outcome)
        && isSubmitted == (old(isSubmitted) || (outcome.Replied? && outcome.ok))
      ensures isSubmitted && !old(isSubmitted) ==> sent.Some? && outcome.Replied? && outcome.ok
      ensures old(Valid()) ==> Valid()
    {
      error := "";
      var clientError := ClientError(name, message);
      if clientError.Some? {
        error := clientError.value;
        return None;
      }
      isSubmitting := true;
      sent := Some((JsTrim(name), JsTrim(message)));
      error := RequestError(outcome);
      if outcome.Replied? && outcome.ok {
        isSubmitted := true;
      }
      isSubmitting := false;
    }
  }
}
