/** searchSimpleSolutions as a specification: the one-ply scan for a cell that
    wins at once for the engine, or that the rival would win with. */
module Scanner {
  import opened Board
  import opened BestStep

  /** Cell `s` is empty, and `fig` placed there makes Game.winner report `fig`. */
  predicate Hit(rules: Rules, g: Grid, fig: char, s: Step) {
    InGrid(g, s) && g[s.row][s.col] == Empty &&
    rules.winner(Place(g, s.row, s.col, fig), s) == fig
  }

  /** The value of `aiWinnerStep` (or `rivalWinnerStep`) once the scan has
      visited every cell before position (row, col): the last hit, since each hit
      overwrites the variable, and NoStep while there is none. */
  function LastHit(rules: Rules, g: Grid, fig: char, row: nat, col: nat): (s: Step)
    requires ValidPos(g, row, col)
    ensures s == NoStep || (Before(g, s, row, col) && g[s.row][s.col] == Empty)
    decreases row, col
  {
    if col == 0 then
      if row == 0 then NoStep else LastHit(rules, g, fig, row - 1, |g[row - 1]|)
    else if Hit(rules, g, fig, Step(row, col - 1)) then Step(row, col - 1)
    else LastHit(rules, g, fig, row, col - 1)
  }

  /** One more cell visited: it becomes the last hit if it is one. */
  lemma LastHitNext(rules: Rules, g: Grid, fig: char, row: nat, col: nat)
    requires row < |g| && col < |g[row]|
    ensures LastHit(rules, g, fig, row, col + 1) ==
      if Hit(rules, g, fig, Step(row, col)) then Step(row, col) else LastHit(rules, g, fig, row, col)
  {
  }

  /** LastHit is NoStep exactly when no cell before (row, col) is a hit, and
      otherwise it is a hit and no later cell before (row, col) is one. */
  lemma {:induction false} LastHitIsLast(rules: Rules, g: Grid, fig: char, row: nat, col: nat)
    requires ValidPos(g, row, col)
    ensures var s := LastHit(rules, g, fig, row, col);
      (s == NoStep <==> forall t :: Before(g, t, row, col) ==> !Hit(rules, g, fig, t)) &&
      (s != NoStep ==> Hit(rules, g, fig, s) &&
                       forall t :: Before(g, t, row, col) && Precedes(s, t) ==> !Hit(rules, g, fig, t))
    decreases row, col
  {
    if col == 0 {
      if row > 0 {
        LastHitIsLast(rules, g, fig, row - 1, |g[row - 1]|);
        forall t ensures Before(g, t, row, 0) <==> Before(g, t, row - 1, |g[row - 1]|) {
        }
      }
    } else {
      LastHitIsLast(rules, g, fig, row, col - 1);
      forall t ensures Before(g, t, row, col) <==> Before(g, t, row, col - 1) || t == Step(row, col - 1) {
      }
    }
  }

  /** The state searchSimpleSolutions leaves behind, from state `b`: the engine's
      last winning cell if there is one, else the rival's last winning cell,
      rated by the heuristic with the engine's figure placed there at ply 1;
      with neither, `b` untouched. */
  function Scan(isAIFigureX: bool, rules: Rules, g: Grid, b: Best): (r: Best)
    ensures r == b || (InGrid(g, r.step) && g[r.step.row][r.step.col] == Empty)
  {
    var aiFigure := AiFigure(isAIFigureX);
    var aiWinnerStep := LastHit(rules, g, aiFigure, |g|, 0);
    var rivalWinnerStep := LastHit(rules, g, RivalFigure(isAIFigureX), |g|, 0);
    if aiWinnerStep.row != -1 then
      Best(rules.stepRating(Place(g, aiWinnerStep.row, aiWinnerStep.col, aiFigure), isAIFigureX, aiWinnerStep, 1),
           aiWinnerStep)
    else if rivalWinnerStep.row != -1 then
      Best(rules.stepRating(Place(g, rivalWinnerStep.row, rivalWinnerStep.col, aiFigure), isAIFigureX, rivalWinnerStep, 1),
           rivalWinnerStep)
    else b
  }

  /** Own win beats block. If some cell wins for the engine, the scan picks the
      last such cell in row-major order; a rival's winning cell is picked only
      when the engine has none; with neither, nothing changes. */
  lemma OwnWinBeatsBlock(isAIFigureX: bool, rules: Rules, g: Grid, b: Best)
    ensures var r := Scan(isAIFigureX, rules, g, b);
      var ai := AiFigure(isAIFigureX);
      var rival := RivalFigure(isAIFigureX);
      ((exists t :: Hit(rules, g, ai, t)) ==>
         Hit(rules, g, ai, r.step) && forall t :: Precedes(r.step, t) ==> !Hit(rules, g, ai, t)) &&
      ((forall t :: !Hit(rules, g, ai, t)) && (exists t :: Hit(rules, g, rival, t)) ==>
         Hit(rules, g, rival, r.step) && forall t :: Precedes(r.step, t) ==> !Hit(rules, g, rival, t)) &&
      ((forall t :: !Hit(rules, g, ai, t)) && (forall t :: !Hit(rules, g, rival, t)) ==> r == b)
  {
    var ai := AiFigure(isAIFigureX);
    var rival := RivalFigure(isAIFigureX);
    LastHitIsLast(rules, g, ai, |g|, 0);
    LastHitIsLast(rules, g, rival, |g|, 0);
    forall t ensures Before(g, t, |g|, 0) <==> InGrid(g, t) {
    }
  }
}
