/**
 * The message record shared by the routes, the dashboard and the public
 * page (lib/types.ts), and the status filter every one of them applies.
 */
module Types {
  import opened Wrappers

  /** `MessageStatus`: the three moderation states. */
  datatype Status = Pending | Approved | Hidden

  /** The status as it travels in JSON and is stored. */
  function StatusName(s: Status): (t: string)
    ensures |t| >= 6
  {
    match s
    case Pending => "pending"
    case Approved => "approved"
    case Hidden => "hidden"
  }

  /** Reads a status string; only the three exact names are accepted. */
  function ParseStatus(t: string): (r: Option<Status>)
    ensures r.Some? <==> t == "pending" || t == "approved" || t == "hidden"
    ensures r.Some? ==> StatusName(r.value) == t
  {
    if t == "pending" then Some(Pending)
    else if t == "approved" then Some(Approved)
    else if t == "hidden" then Some(Hidden)
    else None
  }

  lemma StatusNameRoundTrip(s: Status)
    ensures ParseStatus(StatusName(s)) == Some(s)
  {
  }

  /** A stored message. `phoneHash` is the grouping key (a phone number's
      or a name's digest prefix); `approvedAt` is `null` as `None`. */
  datatype Message = Message(
    id: string,
    phoneHash: string,
    content: string,
    status: Status,
    createdAt: string,
    approvedAt: Option<string>)

  /** The moderation invariant: an approval time exactly on approved messages. */
  predicate ApprovedAtConsistent(m: Message) {
    m.approvedAt.Some? <==> m.status == Approved
  }

  /** The moderation invariant over a whole list. */
  predicate AllApprovedAtConsistent(msgs: seq<Message>) {
    forall i | 0 <= i < |msgs| :: ApprovedAtConsistent(msgs[i])
  }

  /** `msgs.filter(m => m.status === s)`. */
  function WithStatus(msgs: seq<Message>, s: Status): (r: seq<Message>)
    ensures |r| <= |msgs|
    ensures forall i | 0 <= i < |r| :: r[i].status == s
    ensures forall m | m in r :: m in msgs
    ensures forall m | m in msgs && m.status == s :: m in r
  {
    if msgs == [] then []
    else (if msgs[0].status == s then [msgs[0]] else []) + WithStatus(msgs[1..], s)
  }

  /** `a` is `b` with some elements deleted, the rest kept in order. */
  predicate IsSubsequence<T(==)>(a: seq<T>, b: seq<T>)
    decreases |b|
  {
    a == [] || (b != [] && ((a[0] == b[0] && IsSubsequence(a[1..], b[1..])) || IsSubsequence(a, b[1..])))
  }

  /** Every sequence is a subsequence of itself. */
  lemma {:induction false} IsSubsequenceReflexive<T>(s: seq<T>)
    ensures IsSubsequence(s, s)
    decreases |s|
  {
    if s != [] {
      IsSubsequenceReflexive(s[1..]);
    }
  }

  /** Filtering keeps the original order. */
  lemma {:induction false} WithStatusIsSubsequence(msgs: seq<Message>, s: Status)
    ensures IsSubsequence(WithStatus(msgs, s), msgs)
    decreases |msgs|
  {
    if msgs != [] {
      WithStatusIsSubsequence(msgs[1..], s);
      var r := WithStatus(msgs, s);
      if msgs[0].status == s {
        assert r[0] == msgs[0] && r[1..] == WithStatus(msgs[1..], s);
      } else {
        assert r == WithStatus(msgs[1..], s);
      }
    }
  }

  /** Filtering twice by the same status is filtering once. */
  lemma {:induction false} WithStatusIdempotent(msgs: seq<Message>, s: Status)
    ensures WithStatus(WithStatus(msgs, s), s) == WithStatus(msgs, s)
    decreases |msgs|
  {
    if msgs != [] {
      WithStatusIdempotent(msgs[1..], s);
      var t := WithStatus(msgs[1..], s);
      if msgs[0].status == s {
        var r := [msgs[0]] + t;
        assert r[0] == msgs[0] && r[1..] == t;
        assert WithStatus(r, s) == [r[0]] + WithStatus(r[1..], s);
      } else {
        assert WithStatus(msgs, s) == [] + t == t;
      }
    }
  }

  /** A list that has only status `s` passes the filter unchanged. */
  lemma {:induction false} WithStatusOfUniform(msgs: seq<Message>, s: Status)
    requires forall i | 0 <= i < |msgs| :: msgs[i].status == s
    ensures WithStatus(msgs, s) == msgs
    decreases |msgs|
  {
    if msgs != [] {
      WithStatusOfUniform(msgs[1..], s);
      assert [msgs[0]] + msgs[1..] == msgs;
    }
  }

  /** The three filters split any list: every message has exactly one status. */
  lemma {:induction false} StatusCountsAddUp(msgs: seq<Message>)
    ensures |WithStatus(msgs, Pending)| + |WithStatus(msgs, Approved)| + |WithStatus(msgs, Hidden)| == |msgs|
    decreases |msgs|
  {
    if msgs != [] {
      StatusCountsAddUp(msgs[1..]);
    }
  }
}
