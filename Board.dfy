/**
 * The 9x9 board of the Game of Life: positions, cells, the eight compass
 * directions and the two addressing functions of src/main.rs, which give
 * the raw neighbour of a cell in one direction and resolve a raw position
 * that falls off the board.
 */
module Board {

  const ROW: int := 9
  const COL: int := 9

  /** A (row, column) pair; used both as a board address and as a raw candidate that may lie off the board. */
  datatype Position = Position(row: int, col: int)

  /** One square of the board: whether it is alive, and the address it was given at start-up. */
  datatype Cell = Cell(status: bool, position: Position)

  datatype Direction = Up | UpRight | Right | DownRight | Down | DownLeft | Left | LeftUp

  /** The directions in the order the step engine visits them. */
  const Values: seq<Direction> := [Up, UpRight, Right, DownRight, Down, DownLeft, Left, LeftUp]

  predicate OnBoard(p: Position) {
    0 <= p.row < ROW && 0 <= p.col < COL
  }

  /** q is one of the eight Moore neighbours of p: at most one step away in each component, and not p itself. */
  predicate Adjacent(p: Position, q: Position) {
    -1 <= q.row - p.row <= 1 && -1 <= q.col - p.col <= 1 && q != p
  }

  /** The raw neighbour of cell c in direction d; it may lie off the board. */
  function NeighbouringCoordinate(c: Cell, d: Direction): (p: Position)
    ensures Adjacent(c.position, p)
  {
    match d
    case Up => Position(c.position.row - 1, c.position.col)
    case UpRight => Position(c.position.row - 1, c.position.col + 1)
    case Right => Position(c.position.row, c.position.col + 1)
    case DownRight => Position(c.position.row + 1, c.position.col + 1)
    case Down => Position(c.position.row + 1, c.position.col)
    case DownLeft => Position(c.position.row + 1, c.position.col - 1)
    case Left => Position(c.position.row, c.position.col - 1)
    case LeftUp => Position(c.position.row - 1, c.position.col - 1)
  }

  /** The eight directions give eight different neighbours, and together every Moore neighbour of the cell. */
  lemma DirectionsCoverNeighbourhood(c: Cell)
    ensures |Values| == 8
    ensures forall k, l :: 0 <= k < l < |Values| ==>
      NeighbouringCoordinate(c, Values[k]) != NeighbouringCoordinate(c, Values[l])
    ensures forall q :: Adjacent(c.position, q) ==>
      exists k :: 0 <= k < |Values| && NeighbouringCoordinate(c, Values[k]) == q
  {
    forall q | Adjacent(c.position, q)
      ensures exists k :: 0 <= k < |Values| && NeighbouringCoordinate(c, Values[k]) == q
    {
      var dr, dc := q.row - c.position.row, q.col - c.position.col;
      var k :=
        if dr == -1 && dc == 0 then 0
        else if dr == -1 && dc == 1 then 1
        else if dr == 0 && dc == 1 then 2
        else if dr == 1 && dc == 1 then 3
        else if dr == 1 && dc == 0 then 4
        else if dr == 1 && dc == -1 then 5
        else if dr == 0 && dc == -1 then 6
        else 7;
      assert NeighbouringCoordinate(c, Values[k]) == q;
    }
  }

  /**
   * Resolves a raw neighbour position: an on-board candidate is returned
   * as it is (row first, column second: nothing is swapped), and a
   * candidate off the board in either component falls back to the origin.
   */
  function ValidPosition(origin: Position, candidate: Position): (p: Position)
    ensures OnBoard(candidate) ==> p == candidate
    ensures !OnBoard(candidate) ==> p == origin
    ensures OnBoard(origin) ==> OnBoard(p)
  {
    var xPos, yPos := candidate.col, candidate.row;
    if candidate.row < 0 || candidate.row >= ROW then
      Position(origin.row, origin.col)
    else if candidate.col < 0 || candidate.col >= COL then
      Position(origin.row, origin.col)
    else
      Position(yPos, xPos)
  }
}
