/** minimaxRecursiveSearch as a specification: a depth-first enumeration of
    placements to SEARCH_DEPTH plies, threading the engine's best-step state
    through every leaf and every decisive placement. */
module Search {
  import opened Board
  import opened BestStep

  /** SEARCH_DEPTH: the number of plies the search looks ahead. */
  const SEARCH_DEPTH: nat := 5

  function Abs(x: int): nat { if x < 0 then -x else x }

  /** The figure placed at remaining depth `depth`: the engine's own when
      SEARCH_DEPTH - depth is even, the rival's otherwise. */
  function Mark(isAIFigureX: bool, depth: nat): (m: char)
    requires depth <= SEARCH_DEPTH
    ensures m in {X, O}
    ensures m == AiFigure(isAIFigureX) <==> (SEARCH_DEPTH - depth) % 2 == 0
  {
    if (SEARCH_DEPTH - depth) % 2 == 0 then AiFigure(isAIFigureX) else RivalFigure(isAIFigureX)
  }

  /** The root ply is the engine's, and each deeper ply is the other side's. */
  lemma MarksAlternate(isAIFigureX: bool, depth: nat)
    requires 0 < depth <= SEARCH_DEPTH
    ensures Mark(isAIFigureX, SEARCH_DEPTH) == AiFigure(isAIFigureX)
    ensures Mark(isAIFigureX, depth) in {X, O}
    ensures Mark(isAIFigureX, depth - 1) == (if Mark(isAIFigureX, depth) == X then O else X)
  {
  }

  /** Where one node's cell loop stands: the best-step state, the candidate step
      (the method's `bestStep` parameter), whether an empty cell was met, and
      whether the loop stopped at a decisive placement. */
  datatype Frame = Frame(best: Best, cand: Step, found: bool, decisive: bool)

  /** The state after minimaxRecursiveSearch(field, depth, rating, cand) run
      from state `b` on field `g`. */
  function Node(isAIFigureX: bool, rules: Rules, g: Grid, depth: nat, rating: int, cand: Step, b: Best): Best
    requires depth <= SEARCH_DEPTH
    decreases depth, |g| + 1, 0
  {
    if depth == 0 then Remember(isAIFigureX, b, rating, cand)
    else
      var f := Cells(isAIFigureX, rules, g, depth, rating, 0, 0, cand, false, b);
      if f.decisive then f.best
      else
        var afterEmpty := if f.found then f.best else Remember(isAIFigureX, f.best, rating, f.cand);
        Remember(isAIFigureX, afterEmpty, rating, f.cand)
  }

  /** The node's cell loop from position (row, col) to its end: every empty
      cell is explored in turn (see Explore) until one of them is decisive. */
  function Cells(isAIFigureX: bool, rules: Rules, g: Grid, depth: nat, rating: int,
                 row: nat, col: nat, cand: Step, found: bool, b: Best): Frame
    requires 0 < depth <= SEARCH_DEPTH
    requires ValidPos(g, row, col)
    decreases depth, |g| - row, if row < |g| then |g[row]| - col else 0
  {
    if row == |g| then Frame(b, cand, found, false)
    else if col == |g[row]| then Cells(isAIFigureX, rules, g, depth, rating, row + 1, 0, cand, found, b)
    else if g[row][col] != Empty then Cells(isAIFigureX, rules, g, depth, rating, row, col + 1, cand, found, b)
    else
      var f := Explore(isAIFigureX, rules, g, depth, rating, row, col, cand, b);
      if f.decisive then f
      else Cells(isAIFigureX, rules, g, depth, rating, row, col + 1, f.cand, true, f.best)
  }

  /** One empty cell of a node: it gets the figure of this ply, the root ply
      makes it the candidate, and the heuristic rates it. A decisive rating
      (absolute value above 1) is added to the path's and offered at once;
      otherwise the subtree below is searched. The cell is empty again
      afterwards, so `g` is unchanged. */
  function Explore(isAIFigureX: bool, rules: Rules, g: Grid, depth: nat, rating: int,
                   row: nat, col: nat, cand: Step, b: Best): Frame
    requires 0 < depth <= SEARCH_DEPTH
    requires InGrid(g, Step(row, col))
    decreases depth, 0, 0
  {
    var step := Step(row, col);
    var cand' := if (SEARCH_DEPTH - depth) % 2 == 0 && depth == SEARCH_DEPTH then step else cand;
    var placed := Place(g, row, col, Mark(isAIFigureX, depth));
    var stepRating := rules.stepRating(placed, isAIFigureX, step, SEARCH_DEPTH - depth + 1);
    if Abs(stepRating) > 1 then
      Frame(Remember(isAIFigureX, b, rating + stepRating, cand'), cand', true, true)
    else
      Frame(Node(isAIFigureX, rules, placed, depth - 1, rating + stepRating, cand', b), cand', true, false)
  }

  /** Step `s` is an empty cell of the root field `g0`. */
  predicate Usable(g0: Grid, s: Step) {
    InGrid(g0, s) && g0[s.row][s.col] == Empty
  }

  /** A best step with a nonzero rating is an empty cell of the root field. */
  predicate Sound(g0: Grid, b: Best) {
    b.rating == 0 || Usable(g0, b.step)
  }

  /** The search keeps the best step sound with respect to the root field `g0`
      and never makes the stored rating worse. The candidate may be unusable
      only at the root, where it is offered with a rating that does not beat
      the stored one; every root cell the search tries is empty in `g0`. */
  lemma {:induction false} NodeKeepsBestSound(isAIFigureX: bool, rules: Rules, g0: Grid, g: Grid, depth: nat,
                                              rating: int, cand: Step, b: Best)
    requires depth <= SEARCH_DEPTH
    requires depth == SEARCH_DEPTH ==> g == g0
    requires Sound(g0, b)
    requires Usable(g0, cand) || (depth == SEARCH_DEPTH && !Improves(isAIFigureX, rating, b.rating))
    ensures var r := Node(isAIFigureX, rules, g, depth, rating, cand, b);
      Sound(g0, r) && AtLeast(isAIFigureX, r.rating, b.rating)
    decreases depth, |g| + 1, 0
  {
    if depth > 0 {
      CellsKeepBestSound(isAIFigureX, rules, g0, g, depth, rating, 0, 0, cand, false, b);
    }
  }

  lemma {:induction false} CellsKeepBestSound(isAIFigureX: bool, rules: Rules, g0: Grid, g: Grid, depth: nat,
                                              rating: int, row: nat, col: nat, cand: Step, found: bool, b: Best)
    requires 0 < depth <= SEARCH_DEPTH
    requires depth == SEARCH_DEPTH ==> g == g0
    requires ValidPos(g, row, col)
    requires Sound(g0, b)
    requires Usable(g0, cand) || depth == SEARCH_DEPTH
    ensures var f := Cells(isAIFigureX, rules, g, depth, rating, row, col, cand, found, b);
      Sound(g0, f.best) && AtLeast(isAIFigureX, f.best.rating, b.rating) &&
      (Usable(g0, f.cand) || f.cand == cand)
    decreases depth, |g| - row, if row < |g| then |g[row]| - col else 0
  {
    if row == |g| {
    } else if col == |g[row]| {
      CellsKeepBestSound(isAIFigureX, rules, g0, g, depth, rating, row + 1, 0, cand, found, b);
    } else if g[row][col] != Empty {
      CellsKeepBestSound(isAIFigureX, rules, g0, g, depth, rating, row, col + 1, cand, found, b);
    } else {
      ExploreKeepsBestSound(isAIFigureX, rules, g0, g, depth, rating, row, col, cand, b);
      var f := Explore(isAIFigureX, rules, g, depth, rating, row, col, cand, b);
      if !f.decisive {
        CellsKeepBestSound(isAIFigureX, rules, g0, g, depth, rating, row, col + 1, f.cand, true, f.best);
      }
    }
  }

  lemma {:induction false} ExploreKeepsBestSound(isAIFigureX: bool, rules: Rules, g0: Grid, g: Grid, depth: nat,
                                                 rating: int, row: nat, col: nat, cand: Step, b: Best)
    requires 0 < depth <= SEARCH_DEPTH
    requires depth == SEARCH_DEPTH ==> g == g0
    requires InGrid(g, Step(row, col)) && g[row][col] == Empty
    requires Sound(g0, b)
    requires Usable(g0, cand) || depth == SEARCH_DEPTH
    ensures var f := Explore(isAIFigureX, rules, g, depth, rating, row, col, cand, b);
      Sound(g0, f.best) && AtLeast(isAIFigureX, f.best.rating, b.rating) && Usable(g0, f.cand)
    decreases depth, 0, 0
  {
    var step := Step(row, col);
    var cand' := if (SEARCH_DEPTH - depth) % 2 == 0 && depth == SEARCH_DEPTH then step else cand;
    var placed := Place(g, row, col, Mark(isAIFigureX, depth));
    var stepRating := rules.stepRating(placed, isAIFigureX, step, SEARCH_DEPTH - depth + 1);
    if Abs(stepRating) <= 1 {
      NodeKeepsBestSound(isAIFigureX, rules, g0, placed, depth - 1, rating + stepRating, cand', b);
    }
  }

  /** Below the root the candidate is passed down unchanged: the only step such
      a subtree can record is the candidate it was given. */
  lemma {:induction false} NodeBelowRootRecordsCandidate(isAIFigureX: bool, rules: Rules, g: Grid, depth: nat,
                                                         rating: int, cand: Step, b: Best)
    requires depth < SEARCH_DEPTH
    ensures var r := Node(isAIFigureX, rules, g, depth, rating, cand, b);
      r == b || r.step == cand
    decreases depth, |g| + 1, 0
  {
    if depth > 0 {
      CellsBelowRootKeepCandidate(isAIFigureX, rules, g, depth, rating, 0, 0, cand, false, b);
    }
  }

  lemma {:induction false} CellsBelowRootKeepCandidate(isAIFigureX: bool, rules: Rules, g: Grid, depth: nat,
                                                       rating: int, row: nat, col: nat, cand: Step,
                                                       found: bool, b: Best)
    requires 0 < depth < SEARCH_DEPTH
    requires ValidPos(g, row, col)
    ensures var f := Cells(isAIFigureX, rules, g, depth, rating, row, col, cand, found, b);
      f.cand == cand && (f.best == b || f.best.step == cand)
    decreases depth, |g| - row, if row < |g| then |g[row]| - col else 0
  {
    if row == |g| {
    } else if col == |g[row]| {
      CellsBelowRootKeepCandidate(isAIFigureX, rules, g, depth, rating, row + 1, 0, cand, found, b);
    } else if g[row][col] != Empty {
      CellsBelowRootKeepCandidate(isAIFigureX, rules, g, depth, rating, row, col + 1, cand, found, b);
    } else {
      ExploreBelowRootKeepsCandidate(isAIFigureX, rules, g, depth, rating, row, col, cand, b);
      var f := Explore(isAIFigureX, rules, g, depth, rating, row, col, cand, b);
      if !f.decisive {
        CellsBelowRootKeepCandidate(isAIFigureX, rules, g, depth, rating, row, col + 1, f.cand, true, f.best);
      }
    }
  }

  lemma {:induction false} ExploreBelowRootKeepsCandidate(isAIFigureX: bool, rules: Rules, g: Grid, depth: nat,
                                                          rating: int, row: nat, col: nat, cand: Step, b: Best)
    requires 0 < depth < SEARCH_DEPTH
    requires InGrid(g, Step(row, col))
    ensures var f := Explore(isAIFigureX, rules, g, depth, rating, row, col, cand, b);
      f.cand == cand && (f.best == b || f.best.step == cand)
    decreases depth, 0, 0
  {
    var placed := Place(g, row, col, Mark(isAIFigureX, depth));
    var stepRating := rules.stepRating(placed, isAIFigureX, Step(row, col), SEARCH_DEPTH - depth + 1);
    if Abs(stepRating) <= 1 {
      NodeBelowRootRecordsCandidate(isAIFigureX, rules, placed, depth - 1, rating + stepRating, cand, b);
    }
  }

  /** A decisive placement ends the node: its rating, added to the path's, is
      offered for the cell's candidate and is the node's whole outcome, and no
      later cell is explored. */
  lemma DecisiveEndsNode(isAIFigureX: bool, rules: Rules, g: Grid, depth: nat, rating: int,
                         row: nat, col: nat, cand: Step, found: bool, b: Best)
    requires 0 < depth <= SEARCH_DEPTH
    requires InGrid(g, Step(row, col)) && g[row][col] == Empty
    requires Abs(rules.stepRating(Place(g, row, col, Mark(isAIFigureX, depth)), isAIFigureX,
                                  Step(row, col), SEARCH_DEPTH - depth + 1)) > 1
    ensures var f := Cells(isAIFigureX, rules, g, depth, rating, row, col, cand, found, b);
      var sr := rules.stepRating(Place(g, row, col, Mark(isAIFigureX, depth)), isAIFigureX,
                                 Step(row, col), SEARCH_DEPTH - depth + 1);
      f.decisive && f.best == Remember(isAIFigureX, b, rating + sr, f.cand) &&
      f.cand == (if depth == SEARCH_DEPTH then Step(row, col) else cand)
  {
  }
}
