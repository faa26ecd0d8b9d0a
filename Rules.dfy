/**
 * The board as a value and the generation rule as a function of it: boards
 * built from a set of live positions and the start-up seed, how the step
 * engine counts live neighbours, the independent Moore-neighbourhood
 * count it agrees with, the entries it queues, and the next generation.
 */
module Rules {
  import opened Board

  datatype Option<T> = None | Some(value: T)

  /** The board as a value: ROW rows of COL cells, indexed [row][column]. */
  type Grid = seq<seq<Cell>>

  predicate Shaped(g: Grid) {
    |g| == ROW && forall i :: 0 <= i < ROW ==> |g[i]| == COL
  }

  /** Every cell's stored position equals its indices, as start-up establishes. */
  predicate Consistent(g: Grid) {
    Shaped(g) && forall i, j :: 0 <= i < ROW && 0 <= j < COL ==> g[i][j].position == Position(i, j)
  }

  /** The consistent board whose live cells are exactly those in live. */
  function FromLive(live: set<Position>): (g: Grid)
    ensures Consistent(g)
    ensures forall i, j :: 0 <= i < ROW && 0 <= j < COL ==> (g[i][j].status <==> Position(i, j) in live)
  {
    seq(ROW, (i: int) => seq(COL, (j: int) => Cell(Position(i, j) in live, Position(i, j))))
  }

  /** The seven cells set alive at start-up. */
  const Seeds: set<Position> :=
    {Position(1, 1), Position(2, 1), Position(1, 2), Position(0, 1), Position(3, 4), Position(3, 5), Position(4, 5)}

  /** The board start-up builds: consistent positions, the seeds alive. */
  function SeedGrid(): (g: Grid)
    ensures Consistent(g)
  {
    FromLive(Seeds)
  }

  /** Two boards with the same shape and the same cells are the same board. */
  lemma GridExtensionality(g: Grid, h: Grid)
    requires Shaped(g) && Shaped(h)
    requires forall i, j :: 0 <= i < ROW && 0 <= j < COL ==> g[i][j] == h[i][j]
    ensures g == h
  {
    forall i | 0 <= i < ROW
      ensures g[i] == h[i]
    {
      assert forall j :: 0 <= j < COL ==> g[i][j] == h[i][j];
    }
  }

  /** 1 for a live cell on the board, 0 otherwise: beyond the border everything is dead. */
  function Alive(g: Grid, p: Position): (n: nat)
    requires Shaped(g)
    ensures n <= 1
    ensures n == 1 <==> OnBoard(p) && g[p.row][p.col].status
  {
    if OnBoard(p) && g[p.row][p.col].status then 1 else 0
  }

  /** Live cells among positions (r, j - 1), (r, j) and (r, j + 1). */
  function WindowRow(g: Grid, r: int, j: int): (n: nat)
    requires Shaped(g)
    ensures n <= 3
  {
    Alive(g, Position(r, j - 1)) + Alive(g, Position(r, j)) + Alive(g, Position(r, j + 1))
  }

  /**
   * The reference count: live cells in the 3x3 window centred on (i, j),
   * less the centre itself, with cells beyond the border dead.
   */
  function LiveNeighbours(g: Grid, i: int, j: int): (n: nat)
    requires Shaped(g)
    ensures n <= 8
  {
    WindowRow(g, i - 1, j) + WindowRow(g, i, j) + WindowRow(g, i + 1, j) - Alive(g, Position(i, j))
  }

  /**
   * What the step engine adds to its counter for cell (i, j) and direction d:
   * it resolves the raw neighbour against the cell's stored position and
   * counts it only when the result is not (i, j) and is alive.
   */
  function Contribution(g: Grid, i: int, j: int, d: Direction): (n: nat)
    requires Shaped(g) && 0 <= i < ROW && 0 <= j < COL && OnBoard(g[i][j].position)
    ensures n <= 1
  {
    var p := ValidPosition(g[i][j].position, NeighbouringCoordinate(g[i][j], d));
    if !(p.row == i && p.col == j) && g[p.row][p.col].status then 1 else 0
  }

  /** The step engine's counter for cell (i, j) after visiting the first k directions. */
  function ActiveCount(g: Grid, i: int, j: int, k: nat): (n: nat)
    requires Shaped(g) && 0 <= i < ROW && 0 <= j < COL && OnBoard(g[i][j].position)
    requires k <= |Values|
    ensures n <= k
  {
    if k == 0 then 0 else ActiveCount(g, i, j, k - 1) + Contribution(g, i, j, Values[k - 1])
  }

  /** With consistent positions, a direction adds 1 exactly when its true neighbour is a live cell on the board. */
  lemma ContributionIsNeighbourAlive(g: Grid, i: int, j: int, d: Direction)
    requires Consistent(g) && 0 <= i < ROW && 0 <= j < COL
    ensures Contribution(g, i, j, d) == Alive(g, NeighbouringCoordinate(g[i][j], d))
  {
    var q := NeighbouringCoordinate(g[i][j], d);
    if OnBoard(q) {
      assert ValidPosition(g[i][j].position, q) == q;
    } else {
      assert ValidPosition(g[i][j].position, q) == Position(i, j);
    }
  }

  /**
   * With consistent positions the step engine's full count is the number
   * of live Moore neighbours, off-board ones never counting: the self
   * fallback of ValidPosition gives a dead border, not a torus.
   */
  lemma ActiveCountIsLiveNeighbours(g: Grid, i: int, j: int)
    requires Consistent(g) && 0 <= i < ROW && 0 <= j < COL
    ensures ActiveCount(g, i, j, |Values|) == LiveNeighbours(g, i, j)
  {
    var c := g[i][j];
    forall k | 0 <= k < |Values|
      ensures Contribution(g, i, j, Values[k]) == Alive(g, NeighbouringCoordinate(c, Values[k]))
    {
      ContributionIsNeighbourAlive(g, i, j, Values[k]);
    }
    assert ActiveCount(g, i, j, 2) == Alive(g, Position(i - 1, j)) + Alive(g, Position(i - 1, j + 1));
    assert ActiveCount(g, i, j, 4) == ActiveCount(g, i, j, 2)
      + Alive(g, Position(i, j + 1)) + Alive(g, Position(i + 1, j + 1));
    assert ActiveCount(g, i, j, 6) == ActiveCount(g, i, j, 4)
      + Alive(g, Position(i + 1, j)) + Alive(g, Position(i + 1, j - 1));
    assert ActiveCount(g, i, j, 8) == ActiveCount(g, i, j, 6)
      + Alive(g, Position(i, j - 1)) + Alive(g, Position(i - 1, j - 1));
  }

  /**
   * The entry the step engine queues for a cell with the given status and
   * neighbour count, or None when it queues nothing.
   */
  function Update(alive: bool, count: int): (u: Option<bool>)
    ensures alive ==> u.Some?
    ensures !alive ==> (u.Some? <==> count == 3)
    ensures u.Some? ==> u.value == (count == 3 || (alive && count == 2))
  {
    if alive then
      if count > 1 && count < 4 then Some(true)
      else if count < 2 || count > 3 then Some(false)
      else None
    else if count == 3 then Some(true)
    else None
  }

  /** The status after a generation: the queued entry if there is one, else the old status. */
  function NextStatus(alive: bool, count: int): (b: bool)
    ensures alive && (count == 2 || count == 3) ==> b
    ensures alive && (count < 2 || count > 3) ==> !b
    ensures !alive && count == 3 ==> b
    ensures !alive && count != 3 ==> !b
  {
    match Update(alive, count)
    case Some(s) => s
    case None => alive
  }

  /** The first n cells of row i of the next generation, each counted on the board before it. */
  function NextRow(g: Grid, i: int, n: nat): (row: seq<Cell>)
    requires Shaped(g) && 0 <= i < ROW && n <= COL
    ensures |row| == n
    ensures forall j :: 0 <= j < n ==> row[j].position == g[i][j].position
  {
    if n == 0 then []
    else NextRow(g, i, n - 1) + [g[i][n - 1].(status := NextStatus(g[i][n - 1].status, LiveNeighbours(g, i, n - 1)))]
  }

  /** The first n rows of the next generation. */
  function NextRows(g: Grid, n: nat): (rows: seq<seq<Cell>>)
    requires Shaped(g) && n <= ROW
    ensures |rows| == n && forall i :: 0 <= i < n ==> |rows[i]| == COL
    ensures forall i, j :: 0 <= i < n && 0 <= j < COL ==> rows[i][j].position == g[i][j].position
  {
    if n == 0 then [] else NextRows(g, n - 1) + [NextRow(g, n - 1, COL)]
  }

  /** The board after one generation, built row by row, every count taken on the board before it. */
  function NextGrid(g: Grid): (h: Grid)
    requires Shaped(g)
    ensures Shaped(h)
    ensures forall i, j :: 0 <= i < ROW && 0 <= j < COL ==> h[i][j].position == g[i][j].position
    ensures Consistent(g) ==> Consistent(h)
  {
    NextRows(g, ROW)
  }

  lemma {:induction false} NextRowAt(g: Grid, i: int, n: nat, j: int)
    requires Shaped(g) && 0 <= i < ROW && n <= COL && 0 <= j < n
    ensures NextRow(g, i, n)[j] == g[i][j].(status := NextStatus(g[i][j].status, LiveNeighbours(g, i, j)))
  {
    if j < n - 1 {
      NextRowAt(g, i, n - 1, j);
    }
  }

  lemma {:induction false} NextRowsAt(g: Grid, n: nat, i: int)
    requires Shaped(g) && n <= ROW && 0 <= i < n
    ensures NextRows(g, n)[i] == NextRow(g, i, COL)
  {
    if i < n - 1 {
      NextRowsAt(g, n - 1, i);
    }
  }

  /** Cell (i, j) of the next generation keeps its position and takes the status the rule gives it. */
  lemma NextGridAt(g: Grid, i: int, j: int)
    requires Shaped(g) && 0 <= i < ROW && 0 <= j < COL
    ensures NextGrid(g)[i][j] == g[i][j].(status := NextStatus(g[i][j].status, LiveNeighbours(g, i, j)))
  {
    NextRowsAt(g, ROW, i);
    NextRowAt(g, i, COL, j);
  }
}
