/**
 * The `messages` table behind the admin database client. Only what the
 * routes ask of it is modelled: insert one row and read it back, update one
 * row picked by id and read it back, and select every row newest first.
 * Whether a request fails is decided outside the model and arrives as a
 * `Fault`; the id and creation time the database assigns arrive as
 * parameters.
 */
module Store {
  import opened Wrappers
  import opened Types
  import Order

  /** How the database answers one request: normally, with an error, or with
      the write done but no row handed back. */
  datatype Fault = NoFault | Fails | NoData

  /** The reply to `insert(...).select().single()`. */
  datatype InsertReply = InsertFailed | Inserted(row: Option<Message>)

  /** The reply to `update(...).eq("id", id).select().single()`. */
  datatype UpdateReply = UpdateFailed | Updated(row: Option<Message>)

  /** The primary key: no two rows share an id. */
  predicate DistinctIds(rows: seq<Message>) {
    forall i, j | 0 <= i < j < |rows| :: rows[i].id != rows[j].id
  }

  /** The position of the row with this id, if there is one. */
  function IndexOf(rows: seq<Message>, id: string): (r: Option<nat>)
    ensures r.Some? ==> r.value < |rows| && rows[r.value].id == id
    ensures r.None? ==> forall i | 0 <= i < |rows| :: rows[i].id != id
  {
    if rows == [] then None
    else if rows[0].id == id then Some(0)
    else match IndexOf(rows[1..], id)
      case None => None
      case Some(k) => Some(k + 1)
  }

  /** The table after `update({status, approved_at}).eq("id", id)`: the row
      with that id gets the two new fields, every other row and every other
      field stays as it was. */
  function SetStatus(rows: seq<Message>, id: string, status: Status, approvedAt: Option<string>): (r: seq<Message>)
    requires DistinctIds(rows)
    ensures |r| == |rows|
    ensures forall i | 0 <= i < |rows| && rows[i].id != id :: r[i] == rows[i]
    ensures forall i | 0 <= i < |rows| && rows[i].id == id ::
      r[i] == rows[i].(status := status, approvedAt := approvedAt)
    ensures forall i | 0 <= i < |rows| :: r[i].id == rows[i].id
    ensures DistinctIds(r)
  {
    match IndexOf(rows, id)
    case None => rows
    case Some(k) => rows[k := rows[k].(status := status, approvedAt := approvedAt)]
  }

  /** An update that keeps the moderation invariant on the row keeps it on the table. */
  lemma SetStatusKeepsApprovedAt(rows: seq<Message>, id: string, status: Status, approvedAt: Option<string>)
    requires DistinctIds(rows) && AllApprovedAtConsistent(rows)
    requires approvedAt.Some? <==> status == Approved
    ensures AllApprovedAtConsistent(SetStatus(rows, id, status, approvedAt))
  {
  }

  /** `select("*").order("created_at", { ascending: false })`: every row,
      newest first by the ISO timestamp string. */
  function NewestFirst(rows: seq<Message>): (r: seq<Message>)
    ensures multiset(r) == multiset(rows)
    ensures Order.SortedBy(r, (m: Message) => m.createdAt, true)
  {
    Order.SortBy(rows, (m: Message) => m.createdAt, true)
  }

  class MessageTable {
    var rows: seq<Message>

    /** The table's own constraint: ids are a primary key. */
    predicate Valid()
      reads this
    {
      DistinctIds(rows)
    }

    constructor ()
      ensures rows == [] && Valid()
    {
      rows := [];
    }

    /** Inserts a new row: `status` pending, no approval time, `id` and
        `createdAt` as the database assigns them. A failing request or a
        clashing id writes nothing. */
    method Insert(phoneHash: string, content: string, status: Status, id: string, createdAt: string, fault: Fault)
      returns (reply: InsertReply)
      requires Valid()
      modifies this
      ensures Valid()
      ensures fault == Fails || IndexOf(old(rows), id).Some? ==>
        reply == InsertFailed && rows == old(rows)
      ensures fault != Fails && IndexOf(old(rows), id).None? ==>
        var row := Message(id, phoneHash, content, status, createdAt, None);
        rows == old(rows) + [row]
        && reply == Inserted(if fault == NoData then None else Some(row))
    {
      if fault == Fails || IndexOf(rows, id).Some? {
        return InsertFailed;
      }
      var row := Message(id, phoneHash, content, status, createdAt, None);
      rows := rows + [row];
      reply := Inserted(if fault == NoData then None else Some(row));
    }

    /** Updates status and approval time of the row with this id and reads
        it back. `.single()` turns "no such row" into an error, and then
        nothing is written. */
    method Update(id: string, status: Status, approvedAt: Option<string>, fault: Fault)
      returns (reply: UpdateReply)
      requires Valid()
      modifies this
      ensures Valid()
      ensures fault == Fails || IndexOf(old(rows), id).None? ==>
        reply == UpdateFailed && rows == old(rows)
      ensures fault != Fails && IndexOf(old(rows), id).Some? ==>
        rows == SetStatus(old(rows), id, status, approvedAt)
        && reply == Updated(if fault == NoData then None else Some(rows[IndexOf(old(rows), id).value]))
    {
      var k := IndexOf(rows, id);
      if fault == Fails || k.None? {
        return UpdateFailed;
      }
      rows := SetStatus(rows, id, status, approvedAt);
      reply := Updated(if fault == NoData then None else Some(rows[k.value]));
    }
  }
}
