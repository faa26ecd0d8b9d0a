/**
 * Repeated generations and what the rule does to particular boards: the
 * empty board and the block are fixed points, a lone cell dies, and the
 * seed evolves as computed.
 */
module Patterns {
  import opened Board
  import opened Rules

  predicate AllDead(g: Grid)
    requires Shaped(g)
  {
    forall i, j :: 0 <= i < ROW && 0 <= j < COL ==> !g[i][j].status
  }

  /** The board after n generations. */
  function Generations(g: Grid, n: nat): (h: Grid)
    requires Shaped(g)
    ensures Shaped(h)
    ensures Consistent(g) ==> Consistent(h)
  {
    if n == 0 then g else NextGrid(Generations(g, n - 1))
  }

  /** Every cell of g keeps its status under the generation rule. */
  ghost predicate Steady(g: Grid)
    requires Shaped(g)
  {
    forall i, j :: 0 <= i < ROW && 0 <= j < COL ==>
      NextStatus(g[i][j].status, LiveNeighbours(g, i, j)) == g[i][j].status
  }

  /** A board on which every cell's rule keeps its status is a fixed point of the generation rule. */
  lemma SteadyIsFixedPoint(g: Grid)
    requires Shaped(g) && Steady(g)
    ensures NextGrid(g) == g
  {
    forall i, j | 0 <= i < ROW && 0 <= j < COL
      ensures NextGrid(g)[i][j] == g[i][j]
    {
      NextGridAt(g, i, j);
    }
    GridExtensionality(NextGrid(g), g);
  }

  /** A board on which the rule gives cell (i, j) the status "(i, j) in live" becomes the board of live. */
  lemma NextGridOfStatuses(g: Grid, live: set<Position>)
    requires Consistent(g)
    requires forall i, j :: 0 <= i < ROW && 0 <= j < COL ==>
      NextStatus(g[i][j].status, LiveNeighbours(g, i, j)) == (Position(i, j) in live)
    ensures NextGrid(g) == FromLive(live)
  {
    forall i, j | 0 <= i < ROW && 0 <= j < COL
      ensures NextGrid(g)[i][j] == FromLive(live)[i][j]
    {
      NextGridAt(g, i, j);
    }
    GridExtensionality(NextGrid(g), FromLive(live));
  }

  /** A board the rule leaves unchanged stays the same for every number of generations. */
  lemma {:induction false} FixedPointForever(g: Grid, n: nat)
    requires Shaped(g) && NextGrid(g) == g
    ensures Generations(g, n) == g
  {
    if n > 0 {
      FixedPointForever(g, n - 1);
    }
  }

  /** In the empty board no cell has a live neighbour, so every cell stays dead. */
  lemma AllDeadSteady(g: Grid)
    requires Shaped(g) && AllDead(g)
    ensures Steady(g)
  {
    forall i, j | 0 <= i < ROW && 0 <= j < COL
      ensures NextStatus(g[i][j].status, LiveNeighbours(g, i, j)) == g[i][j].status
    {
      assert LiveNeighbours(g, i, j) == 0;
    }
  }

  /** A dead cell with no live neighbour stays dead, so the empty board is a fixed point. */
  lemma AllDeadIsFixedPoint(g: Grid)
    requires Shaped(g) && AllDead(g)
    ensures NextGrid(g) == g
  {
    AllDeadSteady(g);
    SteadyIsFixedPoint(g);
  }

  /** An empty board stays empty forever. */
  lemma AllDeadForever(g: Grid, n: nat)
    requires Shaped(g) && AllDead(g)
    ensures Generations(g, n) == g
  {
    AllDeadIsFixedPoint(g);
    FixedPointForever(g, n);
  }

  /** A single live cell has no live neighbour and dies; every other cell has at most one and stays dead. */
  lemma LoneCellDies(p: Position)
    requires OnBoard(p)
    ensures AllDead(NextGrid(FromLive({p})))
  {
    var g := FromLive({p});
    forall i, j | 0 <= i < ROW && 0 <= j < COL
      ensures !NextGrid(g)[i][j].status
    {
      NextGridAt(g, i, j);
      forall q ensures Alive(g, q) == (if q == p then 1 else 0) {
      }
      if Position(i, j) == p {
        assert LiveNeighbours(g, i, j) == 0;
      } else {
        assert LiveNeighbours(g, i, j) <= 1;
      }
    }
  }

  /** The 2x2 block whose top-left cell is (r, c). */
  function Block(r: int, c: int): (g: Grid)
    ensures Consistent(g)
  {
    FromLive({Position(r, c), Position(r, c + 1), Position(r + 1, c), Position(r + 1, c + 1)})
  }

  /** A position is alive on the block board exactly when it lies in the 2x2 square. */
  lemma BlockAlive(r: int, c: int, q: Position)
    requires 0 <= r < ROW - 1 && 0 <= c < COL - 1
    ensures Alive(Block(r, c), q) == if r <= q.row <= r + 1 && c <= q.col <= c + 1 then 1 else 0
  {
  }

  /** Every cell of the block board keeps its status: block cells have three live neighbours, others at most two. */
  lemma BlockCellSteady(r: int, c: int, i: int, j: int)
    requires 0 <= r < ROW - 1 && 0 <= c < COL - 1
    requires 0 <= i < ROW && 0 <= j < COL
    ensures NextStatus(Block(r, c)[i][j].status, LiveNeighbours(Block(r, c), i, j)) == Block(r, c)[i][j].status
  {
    BlockAlive(r, c, Position(i - 1, j - 1));
    BlockAlive(r, c, Position(i - 1, j));
    BlockAlive(r, c, Position(i - 1, j + 1));
    BlockAlive(r, c, Position(i, j - 1));
    BlockAlive(r, c, Position(i, j));
    BlockAlive(r, c, Position(i, j + 1));
    BlockAlive(r, c, Position(i + 1, j - 1));
    BlockAlive(r, c, Position(i + 1, j));
    BlockAlive(r, c, Position(i + 1, j + 1));
  }

  /** Every cell of the block board keeps its status. */
  lemma BlockSteady(r: int, c: int)
    requires 0 <= r < ROW - 1 && 0 <= c < COL - 1
    ensures Steady(Block(r, c))
  {
    var g: Grid := Block(r, c);
    forall i, j | 0 <= i < ROW && 0 <= j < COL
      ensures NextStatus(g[i][j].status, LiveNeighbours(g, i, j)) == g[i][j].status
    {
      BlockCellSteady(r, c, i, j);
    }
  }

  /**
   * The block is a still life wherever it lies on the board, along the
   * border too, since cells beyond the border are dead.
   */
  lemma BlockIsStillLife(r: int, c: int)
    requires 0 <= r < ROW - 1 && 0 <= c < COL - 1
    ensures NextGrid(Block(r, c)) == Block(r, c)
  {
    BlockSteady(r, c);
    SteadyIsFixedPoint(Block(r, c));
  }

  /** The block stays unchanged for every number of generations. */
  lemma BlockForever(r: int, c: int, n: nat)
    requires 0 <= r < ROW - 1 && 0 <= c < COL - 1
    ensures Generations(Block(r, c), n) == Block(r, c)
  {
    BlockIsStillLife(r, c);
    FixedPointForever(Block(r, c), n);
  }

  /** The live cells after the first step from the seed. */
  const SeedSuccessor: set<Position> :=
    {Position(0, 1), Position(0, 2), Position(1, 0), Position(1, 1), Position(1, 2), Position(2, 1), Position(2, 2),
     Position(3, 4), Position(3, 5), Position(4, 4), Position(4, 5)}

  /** A position is alive on the seed board exactly when it is one of the seeds. */
  lemma SeedAlive(q: Position)
    ensures Alive(SeedGrid(), q) == if q in Seeds then 1 else 0
  {
  }

  /**
   * On any board whose live cells are the seeds, each cell moves to its
   * status in SeedSuccessor.
   */
  lemma SeedCellNext(g: Grid, i: int, j: int)
    requires Shaped(g) && 0 <= i < ROW && 0 <= j < COL
    requires forall q :: Alive(g, q) == if q in Seeds then 1 else 0
    ensures NextStatus(g[i][j].status, LiveNeighbours(g, i, j)) == (Position(i, j) in SeedSuccessor)
  {
  }

  /**
   * The whole first generation of the seed, with dead cells beyond the
   * border; in particular (1, 1), with live neighbours (0, 1), (1, 2) and
   * (2, 1), survives.
   */
  lemma SeedFirstGeneration()
    ensures NextGrid(SeedGrid()) == FromLive(SeedSuccessor)
  {
    var g: Grid := SeedGrid();
    forall q ensures Alive(g, q) == if q in Seeds then 1 else 0 {
      SeedAlive(q);
    }
    forall i, j | 0 <= i < ROW && 0 <= j < COL
      ensures NextStatus(g[i][j].status, LiveNeighbours(g, i, j)) == (Position(i, j) in SeedSuccessor)
    {
      SeedCellNext(g, i, j);
    }
    NextGridOfStatuses(g, SeedSuccessor);
  }
}
