/**
 * The two phases of the step engine on board values: the update list the
 * scan builds, and the board the write-back loop leaves behind, with the
 * proof that scanning then writing back gives exactly the next generation.
 */
module StepEngine {
  import opened Board
  import opened Rules

  /** An entry of the update list: a board position and the status to write there. */
  type Entry = (Position, bool)

  /** p comes strictly before q in row-major order. */
  predicate RowMajorBefore(p: Position, q: Position) {
    p.row < q.row || (p.row == q.row && p.col < q.col)
  }

  /** The entry queued for an on-board position, decided by its status and live-neighbour count. */
  function Pending(g: Grid, p: Position): Option<bool>
    requires Shaped(g) && OnBoard(p)
  {
    Update(g[p.row][p.col].status, LiveNeighbours(g, p.row, p.col))
  }

  /** Every entry is on the board, before (i, j) in row-major order, and the entry the rule queues for its cell. */
  ghost predicate EntriesBefore(g: Grid, updates: seq<Entry>, i: int, j: int)
    requires Shaped(g)
  {
    forall k :: 0 <= k < |updates| ==>
      OnBoard(updates[k].0) && RowMajorBefore(updates[k].0, Position(i, j)) &&
      Pending(g, updates[k].0) == Some(updates[k].1)
  }

  /** Entries are in strictly increasing row-major order, so no cell has two. */
  ghost predicate InOrder(updates: seq<Entry>) {
    forall k, l :: 0 <= k < l < |updates| ==> RowMajorBefore(updates[k].0, updates[l].0)
  }

  /** Every cell before (i, j) that the rule queues an entry for has one. */
  ghost predicate CoveredBefore(g: Grid, updates: seq<Entry>, i: int, j: int)
    requires Shaped(g)
  {
    forall p :: OnBoard(p) && RowMajorBefore(p, Position(i, j)) && Pending(g, p).Some? ==>
      exists k :: 0 <= k < |updates| && updates[k].0 == p
  }

  /** The update list after scanning every cell before (i, j) in row-major order. */
  ghost predicate ScannedBefore(g: Grid, updates: seq<Entry>, i: int, j: int)
    requires Shaped(g)
  {
    EntriesBefore(g, updates, i, j) && InOrder(updates) && CoveredBefore(g, updates, i, j)
  }

  /** The update list of a complete scan: what the first phase of a step promises. */
  ghost predicate ScanComplete(g: Grid, updates: seq<Entry>)
    requires Shaped(g)
  {
    (forall k :: 0 <= k < |updates| ==>
      OnBoard(updates[k].0) && Pending(g, updates[k].0) == Some(updates[k].1)) &&
    InOrder(updates) &&
    (forall p :: OnBoard(p) && Pending(g, p).Some? ==>
      exists k :: 0 <= k < |updates| && updates[k].0 == p)
  }

  /** Nothing is scanned before the first cell. */
  lemma ScanStart(g: Grid)
    requires Shaped(g)
    ensures ScannedBefore(g, [], 0, 0)
  {
  }

  /** The list after visiting cell (i, j): its queued entry, if any, appended. */
  function Visit(g: Grid, before: seq<Entry>, i: int, j: int): (after: seq<Entry>)
    requires Shaped(g) && 0 <= i < ROW && 0 <= j < COL
    ensures |before| <= |after| <= |before| + 1 && after[..|before|] == before
  {
    var u := Pending(g, Position(i, j));
    if u.Some? then before + [(Position(i, j), u.value)] else before
  }

  lemma VisitKeepsEntries(g: Grid, before: seq<Entry>, i: int, j: int)
    requires Shaped(g) && 0 <= i < ROW && 0 <= j < COL
    requires EntriesBefore(g, before, i, j)
    ensures EntriesBefore(g, Visit(g, before, i, j), i, j + 1)
  {
    var after := Visit(g, before, i, j);
    forall k | 0 <= k < |after|
      ensures OnBoard(after[k].0) && RowMajorBefore(after[k].0, Position(i, j + 1))
      ensures Pending(g, after[k].0) == Some(after[k].1)
    {
      if k < |before| {
        assert after[k] == before[k];
      }
    }
  }

  lemma VisitKeepsOrder(g: Grid, before: seq<Entry>, i: int, j: int)
    requires Shaped(g) && 0 <= i < ROW && 0 <= j < COL
    requires EntriesBefore(g, before, i, j) && InOrder(before)
    ensures InOrder(Visit(g, before, i, j))
  {
    var after := Visit(g, before, i, j);
    forall k, l | 0 <= k < l < |after|
      ensures RowMajorBefore(after[k].0, after[l].0)
    {
      assert after[k] == before[k];
      if l < |before| {
        assert after[l] == before[l];
      }
    }
  }

  lemma VisitKeepsCoverage(g: Grid, before: seq<Entry>, i: int, j: int)
    requires Shaped(g) && 0 <= i < ROW && 0 <= j < COL
    requires CoveredBefore(g, before, i, j)
    ensures CoveredBefore(g, Visit(g, before, i, j), i, j + 1)
  {
    var after := Visit(g, before, i, j);
    forall p | OnBoard(p) && RowMajorBefore(p, Position(i, j + 1)) && Pending(g, p).Some?
      ensures exists k :: 0 <= k < |after| && after[k].0 == p
    {
      if p == Position(i, j) {
        assert after[|after| - 1].0 == p;
      } else {
        var k :| 0 <= k < |before| && before[k].0 == p;
        assert after[k].0 == p;
      }
    }
  }

  /** Visiting cell (i, j) appends its queued entry, if any, and moves the scan one cell on. */
  lemma ScanAdvance(g: Grid, before: seq<Entry>, i: int, j: int)
    requires Shaped(g) && 0 <= i < ROW && 0 <= j < COL
    requires ScannedBefore(g, before, i, j)
    ensures ScannedBefore(g, Visit(g, before, i, j), i, j + 1)
  {
    VisitKeepsEntries(g, before, i, j);
    VisitKeepsOrder(g, before, i, j);
    VisitKeepsCoverage(g, before, i, j);
  }

  /** Past the last column of row i, the scan is at the start of row i + 1. */
  lemma ScanNextRow(g: Grid, updates: seq<Entry>, i: int)
    requires Shaped(g)
    requires ScannedBefore(g, updates, i, COL)
    ensures ScannedBefore(g, updates, i + 1, 0)
  {
  }

  /** Past the last row, the scan is complete. */
  lemma ScanEnd(g: Grid, updates: seq<Entry>)
    requires Shaped(g)
    requires ScannedBefore(g, updates, ROW, 0)
    ensures ScanComplete(g, updates)
  {
  }

  /** The board after writing the entries of an update list in order, each setting one cell's status. */
  function Applied(g: Grid, updates: seq<Entry>): (h: Grid)
    requires Shaped(g)
    requires forall k :: 0 <= k < |updates| ==> OnBoard(updates[k].0)
    ensures Shaped(h)
    ensures forall i, j :: 0 <= i < ROW && 0 <= j < COL ==> h[i][j].position == g[i][j].position
    decreases |updates|
  {
    if updates == [] then g
    else
      var h := Applied(g, updates[..|updates| - 1]);
      var p, s := updates[|updates| - 1].0, updates[|updates| - 1].1;
      assert OnBoard(p) && |h[p.row]| == COL;
      h[p.row := h[p.row][p.col := h[p.row][p.col].(status := s)]]
  }

  /**
   * When every entry for position p carries the status v, the written board
   * holds v at p if p has an entry at all, and p's old cell otherwise.
   */
  lemma {:induction false} AppliedCell(g: Grid, updates: seq<Entry>, p: Position, v: bool)
    requires Shaped(g) && OnBoard(p)
    requires forall k :: 0 <= k < |updates| ==> OnBoard(updates[k].0)
    requires forall k :: 0 <= k < |updates| && updates[k].0 == p ==> updates[k].1 == v
    ensures Applied(g, updates)[p.row][p.col] ==
      if exists k :: 0 <= k < |updates| && updates[k].0 == p then g[p.row][p.col].(status := v) else g[p.row][p.col]
    decreases |updates|
  {
    if updates != [] {
      var init := updates[..|updates| - 1];
      AppliedCell(g, init, p, v);
      if updates[|updates| - 1].0 != p {
        if exists k :: 0 <= k < |updates| && updates[k].0 == p {
          var k :| 0 <= k < |updates| && updates[k].0 == p;
          assert init[k].0 == p;
        }
      }
    }
  }

  /**
   * Writing back the list of a complete scan gives the next generation:
   * the counts the scan used were all taken on the board before any write.
   */
  lemma ScanThenApplyIsNextGrid(g: Grid, updates: seq<Entry>)
    requires Shaped(g)
    requires ScanComplete(g, updates)
    ensures Applied(g, updates) == NextGrid(g)
  {
    var h := Applied(g, updates);
    forall i, j | 0 <= i < ROW && 0 <= j < COL
      ensures h[i][j] == NextGrid(g)[i][j]
    {
      var p := Position(i, j);
      var v := Pending(g, p).Some? && Pending(g, p).value;
      AppliedCell(g, updates, p, v);
      NextGridAt(g, i, j);
    }
    GridExtensionality(h, NextGrid(g));
  }
}
