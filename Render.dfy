/**
 * The text the renderer prints for a board: one line per row, each cell a
 * three-character token, " 0 " for a live cell and " . " for a dead one,
 * and a line break after every row.
 */
module Render {
  import opened Board
  import opened Rules

  function Token(c: Cell): (t: string)
    ensures |t| == 3
  {
    if c.status then " 0 " else " . "
  }

  function RenderRow(row: seq<Cell>): (s: string)
    ensures |s| == 3 * |row|
  {
    if row == [] then "" else Token(row[0]) + RenderRow(row[1..])
  }

  function RenderRows(rows: seq<seq<Cell>>): (s: string)
    ensures (forall k :: 0 <= k < |rows| ==> |rows[k]| == COL) ==> |s| == |rows| * (3 * COL + 1)
  {
    if rows == [] then "" else RenderRow(rows[0]) + "\n" + RenderRows(rows[1..])
  }

  /** The printed text of a board: ROW lines of 3 * COL characters and a line break. */
  function Render(g: Grid): (s: string)
    requires Shaped(g)
    ensures |s| == ROW * (3 * COL + 1)
  {
    RenderRows(g)
  }

  /** A slice of a concatenation that lies past its first part is a slice of the second part. */
  lemma SliceAfterPrefix(a: string, b: string, x: int, y: int)
    requires 0 <= x <= y <= |b|
    ensures (a + b)[|a| + x..|a| + y] == b[x..y]
  {
    var left, right := (a + b)[|a| + x..|a| + y], b[x..y];
    forall k | 0 <= k < y - x
      ensures left[k] == right[k]
    {
      assert left[k] == (a + b)[|a| + x + k];
    }
  }

  /** Characters 3j to 3j + 2 of a rendered row are the token of cell j. */
  lemma {:induction false} RenderRowAt(row: seq<Cell>, j: int)
    requires 0 <= j < |row|
    ensures RenderRow(row)[3 * j..3 * j + 3] == Token(row[j])
  {
    if j > 0 {
      RenderRowAt(row[1..], j - 1);
      SliceAfterPrefix(Token(row[0]), RenderRow(row[1..]), 3 * (j - 1), 3 * (j - 1) + 3);
    }
  }

  /** Line i of the rendered rows holds the row's cells in order and ends in a line break. */
  lemma {:induction false} RenderRowsLine(rows: seq<seq<Cell>>, i: int)
    requires forall k :: 0 <= k < |rows| ==> |rows[k]| == COL
    requires 0 <= i < |rows|
    ensures RenderRows(rows)[i * (3 * COL + 1)..(i + 1) * (3 * COL + 1)] == RenderRow(rows[i]) + "\n"
  {
    var w := 3 * COL + 1;
    if i > 0 {
      RenderRowsLine(rows[1..], i - 1);
      var head := RenderRow(rows[0]) + "\n";
      assert |head| == w;
      assert RenderRows(rows) == head + RenderRows(rows[1..]);
      SliceAfterPrefix(head, RenderRows(rows[1..]), (i - 1) * w, i * w);
    }
  }

  /**
   * On the printed text, the token of cell (i, j) starts at column 3j of
   * line i, and each line ends in a line break.
   */
  lemma RenderAt(g: Grid, i: int, j: int)
    requires Shaped(g) && 0 <= i < ROW && 0 <= j < COL
    ensures Render(g)[i * (3 * COL + 1) + 3 * j..i * (3 * COL + 1) + 3 * j + 3] == Token(g[i][j])
    ensures Render(g)[i * (3 * COL + 1) + 3 * COL] == '\n'
  {
    var w := 3 * COL + 1;
    RenderRowsLine(g, i);
    RenderRowAt(g[i], j);
    var s := Render(g);
    var line := s[i * w..(i + 1) * w];
    assert line == RenderRow(g[i]) + "\n";
    var token, fromLine := s[i * w + 3 * j..i * w + 3 * j + 3], line[3 * j..3 * j + 3];
    forall k | 0 <= k < 3
      ensures token[k] == fromLine[k]
    {
      assert line[3 * j + k] == s[i * w + 3 * j + k];
    }
    assert s[i * w + 3 * COL] == line[3 * COL];
  }

  /** The printed text determines every cell's status: boards rendered alike agree on who is alive. */
  lemma RenderDeterminesStatus(g: Grid, h: Grid)
    requires Shaped(g) && Shaped(h) && Render(g) == Render(h)
    ensures forall i, j :: 0 <= i < ROW && 0 <= j < COL ==> g[i][j].status == h[i][j].status
  {
    forall i, j | 0 <= i < ROW && 0 <= j < COL
      ensures g[i][j].status == h[i][j].status
    {
      RenderAt(g, i, j);
      RenderAt(h, i, j);
      assert Token(g[i][j])[1] == Token(h[i][j])[1];
    }
  }
}
