/** The Minimax engine: the instance state (isAIFigureX, bestStepRating,
    bestStep), findMove and the parts it runs, over a mutable square field. */
module MinimaxEngine {
  import opened Board
  import opened BestStep
  import opened Scanner
  import opened Search
  import opened RandomMove

  /** Which way findMove settles on its step. */
  datatype Decision =
    | Immediate(best: Best)        // the scan found a nonzero-rated winning or blocking cell
    | Searched(best: Best)         // the search's step is nonzero-rated and its cell is empty
    | Fallback(searchRating: int)  // neither: a random empty cell is taken

  /** findMove's route on field `g`, from the reset state. The search's step is
      looked up in the field only when its rating is nonzero, and then it is an
      empty cell (NodeKeepsBestSound), so that lookup never uses -1 as an index
      and the fallback is taken only when the search rated nothing. */
  function Decide(isAIFigureX: bool, rules: Rules, g: Grid): (d: Decision)
    ensures !d.Fallback? ==>
      d.best.rating != 0 && InGrid(g, d.best.step) && g[d.best.step.row][d.best.step.col] == Empty
    ensures d.Fallback? ==> Scan(isAIFigureX, rules, g, Reset).rating == 0 && d.searchRating == 0
  {
    var scanned := Scan(isAIFigureX, rules, g, Reset);
    if scanned.rating != 0 then Immediate(scanned)
    else
      var searched := Node(isAIFigureX, rules, g, SEARCH_DEPTH, scanned.rating, scanned.step, scanned);
      NodeKeepsBestSound(isAIFigureX, rules, g, g, SEARCH_DEPTH, scanned.rating, scanned.step, scanned);
      if searched.rating == 0 || g[searched.step.row][searched.step.col] != Empty then Fallback(searched.rating)
      else Searched(searched)
  }

  /** An immediately decided step is the engine's own winning cell when it has
      one, and otherwise a cell where the rival would win. */
  lemma ImmediateWinBeforeBlock(isAIFigureX: bool, rules: Rules, g: Grid)
    ensures var d := Decide(isAIFigureX, rules, g);
      d.Immediate? ==>
        if exists t :: Hit(rules, g, AiFigure(isAIFigureX), t)
        then Hit(rules, g, AiFigure(isAIFigureX), d.best.step)
        else Hit(rules, g, RivalFigure(isAIFigureX), d.best.step)
  {
    OwnWinBeatsBlock(isAIFigureX, rules, g, Reset);
  }

  class Minimax {
    const isAIFigureX: bool
    /** Game.winner and Heuristic.stepRaiting, which the engine calls. */
    const rules: Rules
    var bestStepRating: int
    var bestStep: Step

    function Current(): Best
      reads this
    {
      Best(bestStepRating, bestStep)
    }

    /** A new engine for the given figure, with the neutral best step. */
    constructor (isAIFigureX: bool, rules: Rules)
      ensures this.isAIFigureX == isAIFigureX && this.rules == rules
      ensures Current() == Reset
    {
      this.isAIFigureX := isAIFigureX;
      this.rules := rules;
      bestStepRating := 0;
      bestStep := NoStep;
    }

    /** The engine's step for the field. The field is the same on return; the
        step is an empty cell of it; the scan's decision beats the search's, and
        the search's beats the random fallback. Nothing from an earlier call is
        used: the outcome depends on the field alone. */
    method FindMove(field: array2<char>) returns (move: Step)
      requires field.Length0 == field.Length1
      requires exists i, j :: 0 <= i < field.Length0 && 0 <= j < field.Length1 && field[i, j] == Empty
      modifies this, field
      ensures forall i, j :: 0 <= i < field.Length0 && 0 <= j < field.Length1 ==> field[i, j] == old(field[i, j])
      ensures move == bestStep
      ensures 0 <= move.row < field.Length0 && 0 <= move.col < field.Length1 && field[move.row, move.col] == Empty
      ensures var d := Decide(isAIFigureX, rules, old(Snapshot(field)));
        if d.Fallback? then bestStepRating == d.searchRating else Current() == d.best
    {
      ghost var g := Snapshot(field);
      SnapshotHolds(field);
      bestStepRating := 0;
      bestStep := NoStep;

      SearchSimpleSolutions(field);
      SnapshotHolds(field);
      if bestStepRating != 0 {
        move := bestStep;
        return;
      }
      ghost var scanned := Current();
      MinimaxRecursiveSearch(field, SEARCH_DEPTH, bestStepRating, bestStep);
      SnapshotHolds(field);
      NodeKeepsBestSound(isAIFigureX, rules, g, g, SEARCH_DEPTH, scanned.rating, scanned.step, scanned);
      if bestStepRating == 0 || field[bestStep.row, bestStep.col] != Empty {
        RandomStep(field);
      }
      move := bestStep;
    }

    /** One-ply scan: on return the field is as it was, and the state is the
        scan's (see Scan). Every tried cell, and the cell placed for rating, is
        empty again. */
    method SearchSimpleSolutions(field: array2<char>)
      modifies this, field
      ensures Snapshot(field) == old(Snapshot(field))
      ensures Current() == Scan(isAIFigureX, rules, old(Snapshot(field)), old(Current()))
    {
      ghost var g := Snapshot(field);
      var aiFigure := O;
      var rivalFigure := X;
      if isAIFigureX {
        aiFigure := X;
        rivalFigure := O;
      }
      var aiWinnerStep, rivalWinnerStep := FindWinningCells(field, aiFigure, rivalFigure, g);

      if aiWinnerStep.row != -1 {
        bestStep := aiWinnerStep;
        bestStepRating := RateOwnFigureAt(field, aiWinnerStep, g);
      } else if rivalWinnerStep.row != -1 {
        bestStep := rivalWinnerStep;
        bestStepRating := RateOwnFigureAt(field, rivalWinnerStep, g);
      }
    }

    /** The scan's loops: every empty cell is tried with both figures, and the
        last cell (in row-major order) where each figure wins is returned, or
        NoStep where it wins nowhere. The field is as it was on return. */
    method FindWinningCells(field: array2<char>, aiFigure: char, rivalFigure: char, ghost g: Grid)
      returns (aiWinnerStep: Step, rivalWinnerStep: Step)
      requires Snapshot(field) == g
      modifies field
      ensures Snapshot(field) == g
      ensures aiWinnerStep == LastHit(rules, g, aiFigure, |g|, 0)
      ensures rivalWinnerStep == LastHit(rules, g, rivalFigure, |g|, 0)
    {
      aiWinnerStep := NoStep;
      rivalWinnerStep := NoStep;
      var row := 0;
      while row < field.Length0
        invariant 0 <= row <= field.Length0
        invariant Snapshot(field) == g
        invariant aiWinnerStep == LastHit(rules, g, aiFigure, row, 0)
        invariant rivalWinnerStep == LastHit(rules, g, rivalFigure, row, 0)
      {
        aiWinnerStep, rivalWinnerStep := ScanRow(field, row, aiFigure, rivalFigure, aiWinnerStep, rivalWinnerStep, g);
        row := row + 1;
      }
    }

    /** The scan's inner loop over row `row`, carrying the last winning cells
        found so far. */
    method ScanRow(field: array2<char>, row: nat, aiFigure: char, rivalFigure: char,
                   aiSoFar: Step, rivalSoFar: Step, ghost g: Grid)
      returns (aiWinnerStep: Step, rivalWinnerStep: Step)
      requires Snapshot(field) == g && row < |g|
      requires aiSoFar == LastHit(rules, g, aiFigure, row, 0)
      requires rivalSoFar == LastHit(rules, g, rivalFigure, row, 0)
      modifies field
      ensures Snapshot(field) == g
      ensures aiWinnerStep == LastHit(rules, g, aiFigure, row + 1, 0)
      ensures rivalWinnerStep == LastHit(rules, g, rivalFigure, row + 1, 0)
    {
      aiWinnerStep := aiSoFar;
      rivalWinnerStep := rivalSoFar;
      var col := 0;
      while col < field.Length1
        invariant 0 <= col <= field.Length1
        invariant Snapshot(field) == g
        invariant aiWinnerStep == LastHit(rules, g, aiFigure, row, col)
        invariant rivalWinnerStep == LastHit(rules, g, rivalFigure, row, col)
      {
        SnapshotAt(field, row, col);
        LastHitNext(rules, g, aiFigure, row, col);
        LastHitNext(rules, g, rivalFigure, row, col);
        if field[row, col] == Empty {
          var aiWins, rivalWins := TryStep(field, row, col, aiFigure, rivalFigure, g);
          if aiWins {
            aiWinnerStep := Step(row, col);
          }
          if rivalWins {
            rivalWinnerStep := Step(row, col);
          }
        }
        col := col + 1;
      }
    }

    /** One empty cell of the scan: each figure in turn is placed there and
        Game.winner is asked whether it wins; the cell is emptied again. */
    method TryStep(field: array2<char>, row: int, col: int, aiFigure: char, rivalFigure: char, ghost g: Grid)
      returns (aiWins: bool, rivalWins: bool)
      requires Snapshot(field) == g && InGrid(g, Step(row, col)) && g[row][col] == Empty
      modifies field
      ensures Snapshot(field) == g
      ensures aiWins == Hit(rules, g, aiFigure, Step(row, col))
      ensures rivalWins == Hit(rules, g, rivalFigure, Step(row, col))
    {
      var stepTaken := Step(row, col);
      Put(field, row, col, aiFigure, g);
      aiWins := rules.winner(Snapshot(field), stepTaken) == aiFigure;
      Put(field, row, col, rivalFigure, Place(g, row, col, aiFigure));
      PlaceTwice(g, row, col, aiFigure, rivalFigure);
      rivalWins := rules.winner(Snapshot(field), stepTaken) == rivalFigure;
      Put(field, row, col, Empty, Place(g, row, col, rivalFigure));
      PlaceThenUndo(g, row, col, rivalFigure);
    }

    /** The rating of the engine's figure on the empty cell `s` at ply 1; the
        cell is emptied again. */
    method RateOwnFigureAt(field: array2<char>, s: Step, ghost g: Grid) returns (rating: int)
      requires Snapshot(field) == g && InGrid(g, s) && g[s.row][s.col] == Empty
      modifies field
      ensures Snapshot(field) == g
      ensures rating == rules.stepRating(Place(g, s.row, s.col, AiFigure(isAIFigureX)), isAIFigureX, s, 1)
    {
      Put(field, s.row, s.col, AiFigure(isAIFigureX), g);
      rating := rules.stepRating(Snapshot(field), isAIFigureX, s, 1);
      Put(field, s.row, s.col, Empty, Place(g, s.row, s.col, AiFigure(isAIFigureX)));
      PlaceThenUndo(g, s.row, s.col, AiFigure(isAIFigureX));
    }

    /** Depth-first search to `depth` more plies; `candidate` is the root step
        this path descends from. Every placement is undone on every way out,
        the decisive early return included, and the state is the search's (see
        Node). */
    method MinimaxRecursiveSearch(field: array2<char>, depth: nat, rating: int, candidate: Step)
      requires depth <= SEARCH_DEPTH
      modifies this, field
      ensures Snapshot(field) == old(Snapshot(field))
      ensures Current() == Node(isAIFigureX, rules, old(Snapshot(field)), depth, rating, candidate, old(Current()))
      decreases depth, 1
    {
      ghost var g := Snapshot(field);
      var step := candidate;
      if depth != 0 {
        var defaultCellWasFound := false;
        ghost var total := Cells(isAIFigureX, rules, g, depth, rating, 0, 0, candidate, false, Current());
        var row := 0;
        while row < field.Length0
          invariant 0 <= row <= field.Length0
          invariant Snapshot(field) == g
          invariant Cells(isAIFigureX, rules, g, depth, rating, row, 0, step, defaultCellWasFound, Current()) == total
        {
          var col := 0;
          while col < field.Length1
            invariant 0 <= col <= field.Length1
            invariant Snapshot(field) == g
            invariant Cells(isAIFigureX, rules, g, depth, rating, row, col, step, defaultCellWasFound, Current()) == total
          {
            SnapshotAt(field, row, col);
            if field[row, col] == Empty {
              defaultCellWasFound := true;
              var decisive;
              step, decisive := ExploreCell(field, depth, rating, row, col, step, g);
              if decisive {
                return;
              }
            }
            col := col + 1;
          }
          row := row + 1;
        }
        if !defaultCellWasFound {
          RememberBestStep(rating, step);
        }
      }
      RememberBestStep(rating, step);
    }

    /** The body of the search's cell loop for the empty cell (row, col): place
        this ply's figure, take the cell as the candidate at the root, rate it,
        and either record a decisive rating or search the subtree; the cell is
        emptied again either way. `decisive` reports the early return. */
    method ExploreCell(field: array2<char>, depth: nat, rating: int, row: int, col: int, candidate: Step,
                       ghost g: Grid)
      returns (step: Step, decisive: bool)
      requires 0 < depth <= SEARCH_DEPTH
      requires Snapshot(field) == g && InGrid(g, Step(row, col)) && g[row][col] == Empty
      modifies this, field
      ensures Snapshot(field) == g
      ensures Frame(Current(), step, true, decisive) ==
        Explore(isAIFigureX, rules, g, depth, rating, row, col, candidate, old(Current()))
      decreases depth, 0
    {
      step := candidate;
      var cell := Step(row, col);
      ghost var placed := Place(g, row, col, Mark(isAIFigureX, depth));
      if (SEARCH_DEPTH - depth) % 2 == 0 {
        // the engine's ply
        Put(field, row, col, AiFigure(isAIFigureX), g);
        assert Snapshot(field) == placed;
        if SEARCH_DEPTH == depth {
          step := cell;
        }
      } else {
        // the rival's ply
        Put(field, row, col, RivalFigure(isAIFigureX), g);
        assert Snapshot(field) == placed;
      }
      var stepRating := rules.stepRating(Snapshot(field), isAIFigureX, cell, SEARCH_DEPTH - depth + 1);
      decisive := Abs(stepRating) > 1;
      if decisive {
        RememberBestStep(rating + stepRating, step);
      } else {
        MinimaxRecursiveSearch(field, depth - 1, rating + stepRating, step);
      }
      Put(field, row, col, Empty, placed);
      PlaceThenUndo(g, row, col, Mark(isAIFigureX, depth));
    }

    /** Records (rating, step) when it strictly beats the stored rating. */
    method RememberBestStep(rating: int, step: Step)
      modifies this
      ensures Current() == Remember(isAIFigureX, old(Current()), rating, step)
    {
      if (isAIFigureX && rating > bestStepRating) || (!isAIFigureX && rating < bestStepRating) {
        bestStepRating := rating;
        bestStep := step;
      }
    }

    /** The random fallback with the intended acceptance test: some empty cell,
        chosen without further constraint; the rating is left alone. */
    method RandomStep(field: array2<char>)
      requires exists i, j :: 0 <= i < field.Length0 && 0 <= j < field.Length1 && field[i, j] == Empty
      modifies this
      ensures bestStepRating == old(bestStepRating)
      ensures Accepts(Snapshot(field), bestStep)
      ensures 0 <= bestStep.row < field.Length0 && 0 <= bestStep.col < field.Length1
      ensures field[bestStep.row, bestStep.col] == Empty
    {
      var row, col :| 0 <= row < field.Length0 && 0 <= col < field.Length1 && field[row, col] == Empty;
      bestStep := Step(row, col);
    }
  }
}
