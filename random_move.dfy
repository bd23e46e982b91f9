/** The acceptance test of randomStep's rejection loop. The loop draws a row and
    a column, but tests the diagonal cell `field[col][col]` instead of the cell
    it then returns. */
module RandomMove {
  import opened Board

  /** The test as written: the diagonal cell in the drawn column is empty. */
  predicate AcceptsAsWritten(g: Grid, s: Step)
    requires 0 <= s.col < |g| && s.col < |g[s.col]|
  {
    g[s.col][s.col] == Empty
  }

  /** The intended test: the drawn cell itself is empty. */
  predicate Accepts(g: Grid, s: Step) {
    InGrid(g, s) && g[s.row][s.col] == Empty
  }

  /** As written, the loop can return an occupied cell: on the field
      `_ _ / X _` the draw (1, 0) passes the test although its cell holds X. */
  lemma AsWrittenAcceptsOccupiedCell()
    ensures var g: Grid := [[Empty, Empty], [X, Empty]];
      var s := Step(1, 0);
      AcceptsAsWritten(g, s) && InGrid(g, s) && g[s.row][s.col] != Empty
  {
  }

  /** As written, the loop never ends on the field `X _ / _ O`: it has empty
      cells, yet no draw passes the test. */
  lemma AsWrittenRejectsEveryDraw()
    ensures var g: Grid := [[X, Empty], [Empty, O]];
      Accepts(g, Step(0, 1)) &&
      forall s :: InGrid(g, s) ==> !AcceptsAsWritten(g, s)
  {
    var g: Grid := [[X, Empty], [Empty, O]];
    forall s | InGrid(g, s) ensures !AcceptsAsWritten(g, s) {
      assert s.col == 0 || s.col == 1;
    }
  }

  /** With the intended test, some draw is accepted exactly when the field has
      an empty cell, and every accepted draw names an empty cell. */
  lemma AcceptsExactlyEmptyCells(g: Grid)
    ensures (exists s :: Accepts(g, s)) <==> (exists i, j :: 0 <= i < |g| && 0 <= j < |g[i]| && g[i][j] == Empty)
    ensures forall s :: Accepts(g, s) ==> InGrid(g, s) && g[s.row][s.col] == Empty
  {
    if exists i, j :: 0 <= i < |g| && 0 <= j < |g[i]| && g[i][j] == Empty {
      var i, j :| 0 <= i < |g| && 0 <= j < |g[i]| && g[i][j] == Empty;
      assert Accepts(g, Step(i, j));
    }
  }
}
