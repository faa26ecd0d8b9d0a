/**
 * The world of src/main.rs as a mutable object: a ROW x COL array of cells
 * set up at start-up, and the two-phase step that first scans the whole
 * array queueing (position, status) entries and then writes them back.
 */
module Life {
  import opened Board
  import opened Rules
  import opened StepEngine

  class World {
    const cells: array2<Cell>

    /** The array has the board's size and every cell's stored position is its indices. */
    ghost predicate Valid()
      reads cells
    {
      cells.Length0 == ROW && cells.Length1 == COL &&
      forall i, j :: 0 <= i < ROW && 0 <= j < COL ==> cells[i, j].position == Position(i, j)
    }

    /** The contents of the array as a board value. */
    ghost function Snapshot(): (g: Grid)
      reads cells
      ensures |g| == cells.Length0
      ensures forall i :: 0 <= i < cells.Length0 ==> |g[i]| == cells.Length1
      ensures forall i, j :: 0 <= i < cells.Length0 && 0 <= j < cells.Length1 ==> g[i][j] == cells[i, j]
      ensures Valid() ==> Consistent(g)
    {
      seq(cells.Length0, (i: int) requires 0 <= i < cells.Length0 reads cells =>
        seq(cells.Length1, (j: int) requires 0 <= j < cells.Length1 reads cells => cells[i, j]))
    }

    /** Start-up, first part: a dead board in which every cell is given its own indices as position. */
    static method NewCells() returns (a: array2<Cell>)
      ensures fresh(a) && a.Length0 == ROW && a.Length1 == COL
      ensures forall r, c :: 0 <= r < ROW && 0 <= c < COL ==> a[r, c] == Cell(false, Position(r, c))
    {
      a := new Cell[ROW, COL]((i, j) => Cell(false, Position(0, 0)));
      for i := 0 to ROW
        invariant forall r, c :: 0 <= r < ROW && 0 <= c < COL ==>
          a[r, c] == Cell(false, if r < i then Position(r, c) else Position(0, 0))
      {
        for j := 0 to COL
          invariant forall r, c :: 0 <= r < ROW && 0 <= c < COL ==>
            a[r, c] == Cell(false, if r < i || (r == i && c < j) then Position(r, c) else Position(0, 0))
        {
          a[i, j] := a[i, j].(position := Position(i, j));
        }
      }
    }

    /** Start-up, second part: the seven seed cells are set alive. */
    static method PlantSeeds(a: array2<Cell>)
      requires a.Length0 == ROW && a.Length1 == COL
      modifies a
      ensures forall r, c :: 0 <= r < ROW && 0 <= c < COL ==>
        a[r, c] == old(a[r, c]).(status := Position(r, c) in Seeds || old(a[r, c].status))
    {
      a[1, 1] := a[1, 1].(status := true);
      a[2, 1] := a[2, 1].(status := true);
      a[1, 2] := a[1, 2].(status := true);
      a[0, 1] := a[0, 1].(status := true);
      a[3, 4] := a[3, 4].(status := true);
      a[3, 5] := a[3, 5].(status := true);
      a[4, 5] := a[4, 5].(status := true);
    }

    /** Start-up as a whole: the board of NewCells with the seeds planted. */
    constructor ()
      ensures Valid() && fresh(cells)
      ensures Snapshot() == SeedGrid()
    {
      var a := NewCells();
      PlantSeeds(a);
      cells := a;
      new;
      GridExtensionality(Snapshot(), SeedGrid());
    }

    /** The active-neighbour counter of cell (i, j), computed direction by direction as the step engine does. */
    method CountActiveNeighbours(i: int, j: int) returns (count: nat)
      requires Valid() && 0 <= i < ROW && 0 <= j < COL
      ensures count == LiveNeighbours(Snapshot(), i, j)
    {
      ghost var g := Snapshot();
      count := 0;
      for k := 0 to |Values|
        invariant count == ActiveCount(g, i, j, k)
      {
        var p := ValidPosition(cells[i, j].position, NeighbouringCoordinate(cells[i, j], Values[k]));
        if !(p.row == i && p.col == j) {
          if cells[p.row, p.col].status {
            count := count + 1;
          }
        }
      }
      ActiveCountIsLiveNeighbours(g, i, j);
    }

    /**
     * The first phase of a step: reads the whole array, writes nothing, and
     * returns the update list, at most one entry per cell in row-major
     * order, holding exactly the cells the rule queues an entry for.
     */
    method ScanUpdates() returns (updates: seq<Entry>)
      requires Valid()
      ensures ScanComplete(Snapshot(), updates)
    {
      ghost var g := Snapshot();
      updates := [];
      ScanStart(g);
      for i := 0 to ROW
        invariant ScannedBefore(g, updates, i, 0)
      {
        for j := 0 to COL
          invariant ScannedBefore(g, updates, i, j)
        {
          var count := CountActiveNeighbours(i, j);
          ghost var before := updates;
          ScanAdvance(g, before, i, j);
          if cells[i, j].status {
            if count > 1 && count < 4 {
              updates := updates + [(Position(i, j), true)];
            } else if count < 2 || count > 3 {
              updates := updates + [(Position(i, j), false)];
            }
          } else {
            if count == 3 {
              updates := updates + [(Position(i, j), true)];
            }
          }
          assert updates == Visit(g, before, i, j);
        }
        ScanNextRow(g, updates, i);
      }
      ScanEnd(g, updates);
    }

    /** The second phase of a step: writes the queued statuses into the array, in list order. */
    method WriteBack(updates: seq<Entry>)
      requires Valid()
      requires forall k :: 0 <= k < |updates| ==> OnBoard(updates[k].0)
      modifies cells
      ensures Valid()
      ensures Snapshot() == Applied(old(Snapshot()), updates)
    {
      ghost var g := Snapshot();
      for n := 0 to |updates|
        invariant Snapshot() == Applied(g, updates[..n])
      {
        var (p, s) := updates[n];
        cells[p.row, p.col] := cells[p.row, p.col].(status := s);
        assert updates[..n + 1][..n] == updates[..n];
        GridExtensionality(Snapshot(), Applied(g, updates[..n + 1]));
      }
      assert updates[..|updates|] == updates;
    }

    /** One generation: scan the whole array first, then write every queued status back. */
    method Step()
      requires Valid()
      modifies cells
      ensures Valid()
      ensures Snapshot() == NextGrid(old(Snapshot()))
    {
      var updates := ScanUpdates();
      WriteBack(updates);
      ScanThenApplyIsNextGrid(old(Snapshot()), updates);
    }
  }
}
