/**
 * `GET` and `PATCH /api/messages` (app/api/messages/route.ts): the
 * moderator's list of every message and the status change of one message,
 * both behind the session cookies.
 */
module MessagesRoute {
  import opened Wrappers
  import opened Encoding
  import opened Types
  import opened Store
  import opened Http
  import Order

  /** `isAuthenticated`: the same session decision as the check route. */
  function IsAuthenticated(jar: CookieJar, sha: string -> HexDigest): (r: bool)
    ensures r <==> (SessionCookie in jar && HashCookie in jar
      && jar[SessionCookie] != "" && jar[HashCookie] != "" && sha(jar[SessionCookie]) == jar[HashCookie])
  {
    var token, stored := CookieValue(jar, SessionCookie), CookieValue(jar, HashCookie);
    if token.GetOr("") == "" || stored.GetOr("") == "" then false
    else sha(token.value) == stored.value
  }

  /** `GET`: without a session, 401 whatever the table holds; on a store
      error, 500; otherwise every row, newest first (`data || []`). */
  function Get(rows: seq<Message>, jar: CookieJar, sha: string -> HexDigest, fault: Fault): (r: Response)
    ensures !IsAuthenticated(jar, sha) ==> r == Response(401, ErrorJson("Unauthorized"))
    ensures IsAuthenticated(jar, sha) && fault == Fails ==>
      r == Response(500, ErrorJson("Failed to fetch messages"))
    ensures IsAuthenticated(jar, sha) && fault == NoData ==> r == Response(200, MessagesJson([]))
    ensures IsAuthenticated(jar, sha) && fault == NoFault ==>
      r.status == 200 && r.payload.MessagesJson?
      && multiset(r.payload.messages) == multiset(rows)
      && Order.SortedBy(r.payload.messages, (m: Message) => m.createdAt, true)
  {
    if !IsAuthenticated(jar, sha) then Response(401, ErrorJson("Unauthorized"))
    else if fault == Fails then Response(500, ErrorJson("Failed to fetch messages"))
    else if fault == NoData then Response(200, MessagesJson([]))
    else Response(200, MessagesJson(NewestFirst(rows)))
  }

  /** What the PATCH checks leave: a response to send at once, or the
      target id (`None` for a non-string id, which no row's id equals) and
      the new status. */
  datatype PatchRequest = PatchRejected(response: Response) | PatchTarget(id: Option<string>, status: Status)

  /** The PATCH checks in order: session, body, both fields present, then a
      known status. */
  function CheckPatch(authenticated: bool, body: JsonBody): (r: PatchRequest)
    ensures !authenticated ==> r == PatchRejected(Response(401, ErrorJson("Unauthorized")))
    ensures authenticated && !body.Value? ==> r == PatchRejected(Response(500, ErrorJson("Something went wrong")))
    ensures (authenticated && body.Value?
             && (!FieldTruthy(Lookup(body.fields, "id")) || !FieldTruthy(Lookup(body.fields, "status")))) ==>
      r == PatchRejected(Response(400, ErrorJson("Message ID and status are required")))
    ensures (authenticated && body.Value? && FieldTruthy(Lookup(body.fields, "id"))
             && FieldTruthy(Lookup(body.fields, "status")) && !Lookup(body.fields, "status").Str?) ==>
      r == PatchRejected(Response(400, ErrorJson("Invalid status")))
    ensures r.PatchTarget? <==>
      authenticated && body.Value? && FieldTruthy(Lookup(body.fields, "id"))
      && Lookup(body.fields, "status").Str? && ParseStatus(Lookup(body.fields, "status").text).Some?
    ensures r.PatchTarget? ==> Lookup(body.fields, "status") == Str(StatusName(r.status))
    ensures r.PatchTarget? ==> (r.id.Some? <==> Lookup(body.fields, "id").Str?)
    ensures r.PatchTarget? && r.id.Some? ==> Lookup(body.fields, "id") == Str(r.id.value) && r.id.value != ""
  {
    if !authenticated then PatchRejected(Response(401, ErrorJson("Unauthorized")))
    else if !body.Value? then PatchRejected(Response(500, ErrorJson("Something went wrong")))
    else
      var id, status := Lookup(body.fields, "id"), Lookup(body.fields, "status");
      if !FieldTruthy(id) || !FieldTruthy(status) then
        PatchRejected(Response(400, ErrorJson("Message ID and status are required")))
      else if !status.Str? || ParseStatus(status.text).None? then
        PatchRejected(Response(400, ErrorJson("Invalid status")))
      else
        PatchTarget(if id.Str? then Some(id.text) else None, ParseStatus(status.text).value)
  }

  /** `approved_at`: the current time for an approval, `null` otherwise. */
  function ApprovedAtFor(status: Status, now: string): (a: Option<string>)
    ensures a.Some? <==> status == Approved
    ensures a.Some? ==> a.value == now
  {
    if status == Approved then Some(now) else None
  }

  /** `PATCH`. Rejected requests and failed updates leave the table as it
      was; a successful one changes exactly the two fields of the one row
      with the id, and the moderation invariant survives. */
  method Patch(table: MessageTable, jar: CookieJar, body: JsonBody, sha: string -> HexDigest,
               now: string, fault: Fault)
    returns (res: Response)
    requires table.Valid()
    modifies table
    ensures table.Valid()
    ensures AllApprovedAtConsistent(old(table.rows)) ==> AllApprovedAtConsistent(table.rows)
    ensures var req := CheckPatch(IsAuthenticated(jar, sha), body);
      req.PatchRejected? ==> res == req.response && table.rows == old(table.rows)
    ensures var req := CheckPatch(IsAuthenticated(jar, sha), body);
      req.PatchTarget? && (req.id.None? || fault == Fails || IndexOf(old(table.rows), req.id.value).None?) ==>
        res == Response(500, ErrorJson("Failed to update message")) && table.rows == old(table.rows)
    ensures var req := CheckPatch(IsAuthenticated(jar, sha), body);
      req.PatchTarget? && req.id.Some? && fault != Fails && IndexOf(old(table.rows), req.id.value).Some? ==>
        var k := IndexOf(old(table.rows), req.id.value).value;
        table.rows == SetStatus(old(table.rows), req.id.value, req.status, ApprovedAtFor(req.status, now))
        && res == Response(200, MessageJson(if fault == NoData then None else Some(table.rows[k])))
  {
    var req := CheckPatch(IsAuthenticated(jar, sha), body);
    if req.PatchRejected? {
      return req.response;
    }
    if req.id.None? {
      return Response(500, ErrorJson("Failed to update message"));
    }
    ghost var before := table.rows;
    var reply := table.Update(req.id.value, req.status, ApprovedAtFor(req.status, now), fault);
    if reply.UpdateFailed? {
      return Response(500, ErrorJson("Failed to update message"));
    }
    if AllApprovedAtConsistent(before) {
      SetStatusKeepsApprovedAt(before, req.id.value, req.status, ApprovedAtFor(req.status, now));
    }
    res := Response(200, MessageJson(reply.row));
  }
}
