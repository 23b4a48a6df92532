/**
 * The moderation dashboard (app/dashboard/page.tsx): the client-side
 * password gate, and the local list of messages that the moderator toggles
 * between approved and hidden and views through a status filter. The list
 * starts as the fixture; the clock is a parameter.
 */
module DashboardPage {
  import opened Wrappers
  import opened Types
  import MockData

  class PasswordGate {
    var password: string
    var error: bool
    var isShaking: bool

    constructor ()
      ensures password == "" && !error && !isShaking
    {
      password, error, isShaking := "", false, false;
    }

    /** The input's `onChange`: the new text, and the error cleared. */
    method Type(value: string)
      modifies this
      ensures password == value && !error && isShaking == old(isShaking)
    {
      password := value;
      error := false;
    }

    /** `handleSubmit`: success exactly when the input equals the configured
        password (an unset one matches nothing); otherwise the error shows,
        the field shakes and is emptied. */
    method HandleSubmit(configured: Option<string>) returns (success: bool)
      modifies this
      ensures success <==> configured == Some(old(password))
      ensures success ==> password == old(password) && error == old(error) && isShaking == old(isShaking)
      ensures !success ==> password == "" && error && isShaking
    {
      if configured == Some(password) {
        return true;
      }
      error := true;
      isShaking := true;
      password := "";
      return false;
    }

    /** The 500 ms timer that ends the shake. */
    method ShakeTimerFired()
      modifies this
      ensures !isShaking && password == old(password) && error == old(error)
    {
      isShaking := false;
    }
  }

  /** The filter tabs. */
  datatype Filter = All | Only(status: Status)

  /** The status a toggle moves to: approved becomes hidden, anything else
      becomes approved. */
  function Toggle(s: Status): (t: Status)
    ensures t != s
    ensures t != Pending
    ensures t == Hidden <==> s == Approved
  {
    if s == Approved then Hidden else Approved
  }

  /** Two toggles give back an approved or hidden status, and send a pending
      message to hidden. */
  lemma ToggleTwice(s: Status)
    ensures Toggle(Toggle(s)) == if s == Pending then Hidden else s
  {
  }

  /** One message toggled at time `now`. */
  function Toggled(m: Message, now: string): (r: Message)
    ensures r.status == Toggle(m.status)
    ensures ApprovedAtConsistent(r)
    ensures r.approvedAt.Some? ==> r.approvedAt.value == now
    ensures r.id == m.id && r.phoneHash == m.phoneHash && r.content == m.content && r.createdAt == m.createdAt
  {
    var status := Toggle(m.status);
    m.(status := status, approvedAt := if status == Approved then Some(now) else None)
  }

  /** `prev.map(...)` in `toggleVisibility`: every message with the id is
      toggled, every other one is kept, and the length and order stay. */
  function ToggleById(msgs: seq<Message>, id: string, now: string): (r: seq<Message>)
    ensures |r| == |msgs|
    ensures forall i | 0 <= i < |msgs| && msgs[i].id != id :: r[i] == msgs[i]
    ensures forall i | 0 <= i < |msgs| && msgs[i].id == id :: r[i] == Toggled(msgs[i], now)
  {
    seq(|msgs|, i requires 0 <= i < |msgs| => if msgs[i].id == id then Toggled(msgs[i], now) else msgs[i])
  }

  /** Toggling keeps the moderation invariant of the whole list. */
  lemma ToggleKeepsApprovedAt(msgs: seq<Message>, id: string, now: string)
    requires AllApprovedAtConsistent(msgs)
    ensures AllApprovedAtConsistent(ToggleById(msgs, id, now))
  {
  }

  /** Toggling the same message twice restores an approved or hidden one's
      status; a pending one ends up hidden. Nothing else moves. */
  lemma ToggleByIdTwice(msgs: seq<Message>, id: string, t1: string, t2: string)
    ensures var r := ToggleById(ToggleById(msgs, id, t1), id, t2);
      |r| == |msgs|
      && (forall i | 0 <= i < |msgs| && msgs[i].id != id :: r[i] == msgs[i])
      && (forall i | 0 <= i < |msgs| && msgs[i].id == id ::
            r[i].status == if msgs[i].status == Pending then Hidden else msgs[i].status)
  {
    var once := ToggleById(msgs, id, t1);
    forall i | 0 <= i < |msgs| && msgs[i].id == id
      ensures ToggleById(once, id, t2)[i].status == if msgs[i].status == Pending then Hidden else msgs[i].status
    {
      ToggleTwice(msgs[i].status);
    }
  }

  /** `filteredMessages`: everything under "all", otherwise exactly the
      messages with the chosen status, in list order. */
  function FilterMessages(msgs: seq<Message>, filter: Filter): (r: seq<Message>)
    ensures filter.All? ==> r == msgs
    ensures filter.Only? ==> r == WithStatus(msgs, filter.status)
    ensures IsSubsequence(r, msgs)
  {
    match filter
    case All =>
      IsSubsequenceReflexive(msgs);
      msgs
    case Only(s) =>
      WithStatusIsSubsequence(msgs, s);
      WithStatus(msgs, s)
  }

  /** The tab counters. */
  datatype Counts = Counts(all: nat, pending: nat, approved: nat, hidden: nat)

  /** `counts`: the list length and the size of each status filter; the
      three status counts add up to the total. */
  function CountsOf(msgs: seq<Message>): (c: Counts)
    ensures c.pending + c.approved + c.hidden == c.all == |msgs|
    ensures c.pending == |FilterMessages(msgs, Only(Pending))|
    ensures c.approved == |FilterMessages(msgs, Only(Approved))|
    ensures c.hidden == |FilterMessages(msgs, Only(Hidden))|
  {
    StatusCountsAddUp(msgs);
    Counts(|msgs|, |WithStatus(msgs, Pending)|, |WithStatus(msgs, Approved)|, |WithStatus(msgs, Hidden)|)
  }

  class Dashboard {
    var isAuthenticated: bool
    var messages: seq<Message>
    var filter: Filter

    /** The moderation invariant on the local list. */
    predicate Valid()
      reads this
    {
      AllApprovedAtConsistent(messages)
    }

    /** A fresh page: locked, showing the fixture under "all". */
    constructor ()
      ensures !isAuthenticated && messages == MockData.MockMessages && filter == All
      ensures Valid()
    {
      MockData.FixtureInvariants();
      isAuthenticated := false;
      messages := MockData.MockMessages;
      filter := All;
    }

    /** The gate's `onSuccess`. */
    method Unlock()
      modifies this
      ensures isAuthenticated && messages == old(messages) && filter == old(filter)
    {
      isAuthenticated := true;
    }

    /** A filter tab; the tabs exist only past the gate. */
    method SelectFilter(f: Filter)
      requires isAuthenticated
      modifies this
      ensures filter == f && messages == old(messages) && isAuthenticated == old(isAuthenticated)
    {
      filter := f;
    }

    /** `toggleVisibility(id)` with the clock reading `now`; the button
        exists only past the gate. */
    method ToggleVisibility(id: string, now: string)
      requires isAuthenticated && Valid()
      modifies this
      ensures messages == ToggleById(old(messages), id, now)
      ensures filter == old(filter) && isAuthenticated == old(isAuthenticated)
      ensures Valid()
    {
      ToggleKeepsApprovedAt(messages, id, now);
      messages := ToggleById(messages, id, now);
    }

    function FilteredMessages(): seq<Message>
      reads this
    {
      FilterMessages(messages, filter)
    }

    function CurrentCounts(): Counts
      reads this
    {
      CountsOf(messages)
    }
  }
}
