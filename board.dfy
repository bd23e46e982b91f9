/** The playing field of Minimax.java: cell values, steps (cell coordinates),
    a value view of the `char[][]` field, and the two collaborators whose code is
    not part of this model (`Game.winner`, `Heuristic.stepRaiting`). */
module Board {

  /** DEFAULT_CELL_VALUE, VALUE_X and VALUE_O. */
  const Empty: char := '_'
  const X: char := 'X'
  const O: char := 'O'

  /** A step {row coordinate, column coordinate}. */
  datatype Step = Step(row: int, col: int)

  /** The "no step yet" value {-1, -1}. */
  const NoStep: Step := Step(-1, -1)

  /** Value view of the field: the cell in row i, column j is g[i][j]. */
  type Grid = seq<seq<char>>

  /** The two external oracles, as functions of the field's contents:
      `winner(field, lastStep)` is Game.winner and
      `stepRating(field, isAIFigureX, step, ply)` is Heuristic.stepRaiting. */
  datatype Rules = Rules(winner: (Grid, Step) -> char, stepRating: (Grid, bool, Step, int) -> int)

  /** The figure the engine places, and the figure of its rival. */
  function AiFigure(isAIFigureX: bool): char { if isAIFigureX then X else O }
  function RivalFigure(isAIFigureX: bool): char { if isAIFigureX then O else X }

  predicate InGrid(g: Grid, s: Step) {
    0 <= s.row < |g| && 0 <= s.col < |g[s.row]|
  }

  /** Row-major order on steps: the order in which the nested row/column loops visit cells. */
  predicate Precedes(s: Step, t: Step) {
    s.row < t.row || (s.row == t.row && s.col < t.col)
  }

  /** A loop position (row, col): the next cell the row-major scan visits;
      (|g|, 0) is the position after the last cell. */
  predicate ValidPos(g: Grid, row: nat, col: nat) {
    row <= |g| && (row < |g| ==> col <= |g[row]|) && (row == |g| ==> col == 0)
  }

  /** The cells strictly before position (row, col) in row-major order. */
  predicate Before(g: Grid, t: Step, row: nat, col: nat) {
    InGrid(g, t) && Precedes(t, Step(row, col))
  }

  /** `field[row][col] = mark`, as a value: only that cell changes, the shape is kept. */
  function Place(g: Grid, row: int, col: int, mark: char): (r: Grid)
    requires InGrid(g, Step(row, col))
    ensures |r| == |g| && forall i :: 0 <= i < |g| ==> |r[i]| == |g[i]|
    ensures r[row][col] == mark
    ensures forall i, j :: 0 <= i < |g| && 0 <= j < |g[i]| && (i, j) != (row, col) ==> r[i][j] == g[i][j]
  {
    g[row := g[row][col := mark]]
  }

  /** Placing a mark and then writing back the old value gives the field back. */
  lemma PlaceThenUndo(g: Grid, row: int, col: int, mark: char)
    requires InGrid(g, Step(row, col))
    ensures Place(Place(g, row, col, mark), row, col, g[row][col]) == g
  {
    var h := Place(Place(g, row, col, mark), row, col, g[row][col]);
    forall i | 0 <= i < |g| ensures h[i] == g[i] {
      assert |h[i]| == |g[i]|;
    }
  }

  /** A second placement on the same cell replaces the first. */
  lemma PlaceTwice(g: Grid, row: int, col: int, first: char, second: char)
    requires InGrid(g, Step(row, col))
    ensures Place(Place(g, row, col, first), row, col, second) == Place(g, row, col, second)
  {
    var h := Place(Place(g, row, col, first), row, col, second);
    forall i | 0 <= i < |g| ensures h[i] == Place(g, row, col, second)[i] {
      assert |h[i]| == |g[i]|;
    }
  }

  /** The array holds exactly the grid `g`. */
  ghost predicate Holds(field: array2<char>, g: Grid)
    reads field
  {
    |g| == field.Length0 &&
    (forall i :: 0 <= i < |g| ==> |g[i]| == field.Length1) &&
    (forall i, j :: 0 <= i < field.Length0 && 0 <= j < field.Length1 ==> field[i, j] == g[i][j])
  }

  /** The value of the field as it is now; this is what the oracles are given. */
  function Snapshot(field: array2<char>): (g: Grid)
    reads field
    ensures |g| == field.Length0 && forall i :: 0 <= i < |g| ==> |g[i]| == field.Length1
  {
    Rows(field, field.Length0)
  }

  /** The first `n` rows of the field. */
  function Rows(field: array2<char>, n: nat): (g: Grid)
    requires n <= field.Length0
    reads field
    ensures |g| == n
    ensures forall i :: 0 <= i < n ==> |g[i]| == field.Length1
    ensures forall i, j :: 0 <= i < n && 0 <= j < field.Length1 ==> g[i][j] == field[i, j]
  {
    if n == 0 then [] else Rows(field, n - 1) + [Cols(field, n - 1, field.Length1)]
  }

  /** The first `n` cells of row `i`. */
  function Cols(field: array2<char>, i: nat, n: nat): (r: seq<char>)
    requires i < field.Length0 && n <= field.Length1
    reads field
    ensures |r| == n
    ensures forall j :: 0 <= j < n ==> r[j] == field[i, j]
  {
    if n == 0 then [] else Cols(field, i, n - 1) + [field[i, n - 1]]
  }

  /** The snapshot holds every cell of the field. */
  lemma SnapshotHolds(field: array2<char>)
    ensures Holds(field, Snapshot(field))
  {
  }

  /** One cell of the snapshot. */
  lemma SnapshotAt(field: array2<char>, i: int, j: int)
    requires 0 <= i < field.Length0 && 0 <= j < field.Length1
    ensures Snapshot(field)[i][j] == field[i, j]
  {
  }

  /** An array holds exactly one grid. */
  lemma HoldsUnique(field: array2<char>, g: Grid, h: Grid)
    requires Holds(field, g) && Holds(field, h)
    ensures g == h
  {
    forall i | 0 <= i < |g| ensures g[i] == h[i] {
      assert |g[i]| == |h[i]|;
    }
  }

  /** `field[row][col] = mark` on the array, whose value was `g`. */
  method Put(field: array2<char>, row: int, col: int, mark: char, ghost g: Grid)
    requires Snapshot(field) == g && InGrid(g, Step(row, col))
    modifies field
    ensures Snapshot(field) == Place(g, row, col, mark)
  {
    SnapshotHolds(field);
    field[row, col] := mark;
    SnapshotHolds(field);
    HoldsUnique(field, Snapshot(field), Place(g, row, col, mark));
  }
}
