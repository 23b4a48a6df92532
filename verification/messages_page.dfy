/**
 * The public page of moments (app/messages/page.tsx): the approved
 * messages dealt round-robin into three scrolling rows, each drawn twice in
 * a row so that the scroll can loop.
 */
module MessagesPage {
  import opened Types
  import MockData

  /** `items.filter((_, i) => i % 3 === r)`: the items whose position leaves
      remainder `r`, in order. */
  function Row<T>(items: seq<T>, r: nat): (row: seq<T>)
    ensures |row| <= |items|
    decreases |items|
  {
    if items == [] then []
    else Row(items[..|items| - 1], r) + (if (|items| - 1) % 3 == r then [items[|items| - 1]] else [])
  }

  /** Row `r` holds every third item starting at position `r`. */
  lemma {:induction false} RowLength<T>(items: seq<T>, r: nat)
    requires r < 3
    ensures |Row(items, r)| == (|items| + 2 - r) / 3
    decreases |items|
  {
    if items != [] {
      RowLength(items[..|items| - 1], r);
    }
  }

  /** The `k`-th item of row `r` is the item at position `3k + r`. */
  lemma {:induction false} RowIndex<T>(items: seq<T>, r: nat, k: nat)
    requires r < 3 && k < |Row(items, r)|
    ensures 3 * k + r < |items| && Row(items, r)[k] == items[3 * k + r]
    decreases |items|
  {
    var n := |items|;
    var prefix := items[..n - 1];
    RowLength(items, r);
    RowLength(prefix, r);
    if k < |Row(prefix, r)| {
      RowIndex(prefix, r, k);
    } else {
      assert (n - 1) % 3 == r;
    }
  }

  /** The item at position `i` lands in row `i % 3`, at place `i / 3`. */
  lemma ItemPlacement<T>(items: seq<T>, i: nat)
    requires i < |items|
    ensures i / 3 < |Row(items, i % 3)| && Row(items, i % 3)[i / 3] == items[i]
  {
    RowLength(items, i % 3);
    RowIndex(items, i % 3, i / 3);
  }

  /** The three rows share the items out: their lengths add up to the total,
      never grow from the first row to the third, and differ by at most one. */
  lemma RowsShareItems<T>(items: seq<T>)
    ensures |Row(items, 0)| + |Row(items, 1)| + |Row(items, 2)| == |items|
    ensures |Row(items, 2)| <= |Row(items, 1)| <= |Row(items, 0)| <= |Row(items, 2)| + 1
  {
    RowLength(items, 0);
    RowLength(items, 1);
    RowLength(items, 2);
  }

  /** `[...row, ...row]`: the row followed by itself. */
  function Rendered<T>(row: seq<T>): (r: seq<T>)
    ensures |r| == 2 * |row|
    ensures forall k | 0 <= k < |r| :: r[k] == row[k % |row|]
  {
    row + row
  }

  /** The three rendered rows of the page for the list of approved messages
      it was given. */
  function PageRows(approved: seq<Message>): (rows: seq<seq<Message>>)
    ensures |rows| == 3
    ensures forall r | 0 <= r < 3 :: rows[r] == Rendered(Row(approved, r))
  {
    [Rendered(Row(approved, 0)), Rendered(Row(approved, 1)), Rendered(Row(approved, 2))]
  }

  /** A card shows the message at position `3 * (k mod |row|) + r` of the list. */
  lemma CardSource(approved: seq<Message>, r: nat, k: nat)
    requires r < 3 && k < |PageRows(approved)[r]|
    ensures var row := Row(approved, r);
      3 * (k % |row|) + r < |approved| && PageRows(approved)[r][k] == approved[3 * (k % |row|) + r]
  {
    var row := Row(approved, r);
    RowIndex(approved, r, k % |row|);
  }

  /** Every card on the page shows an approved message: the page's list is
      `getApprovedMessages()`. */
  lemma OnlyApprovedShown(approved: seq<Message>, r: nat, k: nat)
    requires approved == MockData.GetApprovedMessages()
    requires r < 3 && k < |PageRows(approved)[r]|
    ensures PageRows(approved)[r][k].status == Approved
  {
    CardSource(approved, r, k);
  }
}
