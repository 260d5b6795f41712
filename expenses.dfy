/** The session's expense list: saving a record (only for a positive amount)
    and deleting the rows ticked in the "recent" view, which shows the last
    ten records newest first. Positions in the list are the row labels, since
    every change renumbers the rows from 0. */
module Expenses {

  /** A wall-clock reading, supplied by the caller (the source reads the clock). */
  type Timestamp = int

  datatype Expense = Expense(date: Timestamp, category: string, subcategory: string, amount: real, notes: string)

  /** How many of the latest records the recent view shows. */
  const RecentCount: nat := 10

  /** `view` lists the positions of the recent view, row by row: the last
      `min(n, 10)` positions of a list of `n` records, each once, newest date
      first (the order among equal dates is the sort's own). */
  predicate IsRecentView(view: seq<nat>, records: seq<Expense>)
  {
    var n := |records|;
    |view| == (if n < RecentCount then n else RecentCount) &&
    (forall k :: 0 <= k < |view| ==> n - |view| <= view[k] < n) &&
    (forall a, b :: 0 <= a < b < |view| ==> view[a] != view[b]) &&
    (forall a, b :: 0 <= a < b < |view| ==> records[view[a]].date >= records[view[b]].date)
  }

  /** `[original_indices[i] for i, checked in enumerate(mask) if checked]` */
  function RowsToDelete(view: seq<nat>, checked: seq<bool>): (rows: seq<nat>)
    requires |checked| == |view|
    ensures |rows| <= |view|
    ensures forall p :: p in rows <==> exists i :: 0 <= i < |view| && checked[i] && view[i] == p
  {
    if view == [] then []
    else
      var n := |view|;
      var init := RowsToDelete(view[..n - 1], checked[..n - 1]);
      assert forall i :: 0 <= i < n - 1 ==> view[..n - 1][i] == view[i] && checked[..n - 1][i] == checked[i];
      init + (if checked[n - 1] then [view[n - 1]] else [])
  }

  /** The positions below `n` that are not removed, in increasing order. */
  function Kept(n: nat, removed: set<nat>): (r: seq<nat>)
    ensures |r| <= n
  {
    if n == 0 then []
    else Kept(n - 1, removed) + (if n - 1 in removed then [] else [n - 1])
  }

  /** The kept positions are exactly those below `n` that are not removed,
      each once, in increasing order. */
  lemma {:induction false} KeptMembers(n: nat, removed: set<nat>)
    ensures forall p: nat :: p in Kept(n, removed) <==> p < n && p !in removed
    ensures forall a, b :: 0 <= a < b < |Kept(n, removed)| ==> Kept(n, removed)[a] < Kept(n, removed)[b]
  {
    if n > 0 {
      KeptMembers(n - 1, removed);
      var init := Kept(n - 1, removed);
      assert forall a :: 0 <= a < |init| ==> init[a] in init;
    }
  }

  /** `rows.drop(labels).reset_index(drop=True)`: the records whose positions
      are not removed, in their original order. */
  function Drop(records: seq<Expense>, removed: set<nat>): (r: seq<Expense>)
    requires forall p :: p in removed ==> p < |records|
    ensures |r| == |Kept(|records|, removed)| == |records| - |removed|
    ensures forall k :: 0 <= k < |r| ==>
      Kept(|records|, removed)[k] < |records| && r[k] == records[Kept(|records|, removed)[k]]
  {
    var kept := Kept(|records|, removed);
    KeptMembers(|records|, removed);
    KeptCount(|records|, removed);
    assert forall k :: 0 <= k < |kept| ==> kept[k] in kept;
    seq(|kept|, k requires 0 <= k < |kept| => records[kept[k]])
  }

  /** Removing a set of positions below `n` leaves `n` minus its size. */
  lemma {:induction false} KeptCount(n: nat, removed: set<nat>)
    requires forall p :: p in removed ==> p < n
    ensures |Kept(n, removed)| == n - |removed|
  {
    if n > 0 {
      var below := removed - {n - 1};
      KeptCount(n - 1, below);
      KeptIgnoresAbove(n - 1, removed, below);
      if n - 1 in removed {
        assert removed == below + {n - 1};
      } else {
        assert removed == below;
      }
    }
  }

  /** Only the removed positions below `n` matter to `Kept(n, _)`. */
  lemma {:induction false} KeptIgnoresAbove(n: nat, a: set<nat>, b: set<nat>)
    requires forall p :: p < n ==> (p in a <==> p in b)
    ensures Kept(n, a) == Kept(n, b)
  {
    if n > 0 { KeptIgnoresAbove(n - 1, a, b); }
  }

  /** The set of positions a list of rows names. */
  function Positions(rows: seq<nat>): set<nat>
  {
    set p | p in rows
  }

  /** Distinct positions make a set of the same size. */
  lemma {:induction false} DistinctCardinality(rows: seq<nat>)
    requires forall a, b :: 0 <= a < b < |rows| ==> rows[a] != rows[b]
    ensures |Positions(rows)| == |rows|
  {
    if rows != [] {
      var n := |rows|;
      var init := rows[..n - 1];
      DistinctCardinality(init);
      assert rows == init + [rows[n - 1]];
      assert Positions(rows) == Positions(init) + {rows[n - 1]};
      forall a | 0 <= a < n - 1 ensures init[a] != rows[n - 1] {
        assert rows[a] != rows[n - 1];
      }
      assert rows[n - 1] !in Positions(init);
    }
  }

  /** The rows picked from a view of distinct positions are distinct. */
  lemma {:induction false} RowsToDeleteDistinct(view: seq<nat>, checked: seq<bool>)
    requires |checked| == |view|
    requires forall a, b :: 0 <= a < b < |view| ==> view[a] != view[b]
    ensures forall a, b :: 0 <= a < b < |RowsToDelete(view, checked)| ==>
      RowsToDelete(view, checked)[a] != RowsToDelete(view, checked)[b]
  {
    if view != [] {
      var n := |view|;
      var vi, ci := view[..n - 1], checked[..n - 1];
      RowsToDeleteDistinct(vi, ci);
      var init := RowsToDelete(vi, ci);
      if checked[n - 1] {
        forall i | 0 <= i < n - 1 ensures vi[i] != view[n - 1] {
          assert view[i] != view[n - 1];
        }
        assert view[n - 1] !in init;
        var rows := RowsToDelete(view, checked);
        assert rows == init + [view[n - 1]];
        forall a, b | 0 <= a < b < |rows| ensures rows[a] != rows[b] {
          if b == |init| {
            assert rows[a] == init[a] && init[a] in init;
          }
        }
      }
    }
  }

  /** The expense table held in the session. */
  class ExpenseBook {
    var receipts: seq<Expense>

    constructor ()
      ensures receipts == []
    {
      receipts := [];
    }

    /** Save: append one record when the amount is positive, otherwise leave
        the list as it is. */
    method Save(date: Timestamp, category: string, subcategory: string, amount: real, notes: string)
      returns (saved: bool)
      modifies this
      ensures saved <==> amount > 0.0
      ensures saved ==> receipts == old(receipts) + [Expense(date, category, subcategory, amount, notes)]
      ensures !saved ==> receipts == old(receipts)
    {
      saved := amount > 0.0;
      if saved {
        receipts := receipts + [Expense(date, category, subcategory, amount, notes)];
      }
    }

    /** Delete the ticked rows of the recent view: map each ticked row to its
        position and drop exactly those positions, keeping every other record
        in its order. With nothing ticked the list stays as it is. */
    method DeleteSelected(view: seq<nat>, checked: seq<bool>) returns (deleted: nat)
      requires IsRecentView(view, receipts) && |checked| == |view|
      modifies this
      ensures var rows := RowsToDelete(view, checked);
        deleted == |rows| &&
        |receipts| == |old(receipts)| - deleted &&
        receipts == Drop(old(receipts), Positions(rows))
      ensures (forall i :: 0 <= i < |checked| ==> !checked[i]) ==> receipts == old(receipts)
    {
      var rows := RowsToDelete(view, checked);
      RowsToDeleteDistinct(view, checked);
      DistinctCardinality(rows);
      var removed := Positions(rows);
      if rows != [] {
        receipts := Drop(receipts, removed);
      } else {
        assert removed == {};
        NothingRemoved(receipts);
      }
      deleted := |rows|;
    }
  }

  /** Dropping nothing keeps every record. */
  lemma NothingRemoved(records: seq<Expense>)
    ensures Drop(records, {}) == records
  {
    var kept := Kept(|records|, {});
    KeptIsAllPositions(|records|);
  }

  /** With nothing removed, `Kept(n, {})` lists 0, 1, ..., n - 1. */
  lemma {:induction false} KeptIsAllPositions(n: nat)
    ensures |Kept(n, {})| == n && forall k :: 0 <= k < n ==> Kept(n, {})[k] == k
  {
    if n > 0 { KeptIsAllPositions(n - 1); }
  }
}
