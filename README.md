# Minimax tic-tac-toe engine, modelled in Dafny

This project models the move-choosing engine `Minimax` of the Java noughts-and-crosses
game (`org/hexlet/gamexo/ai/minimaxway/Minimax.java`). Given the field, a `char` matrix
holding `'_'`, `'X'` and `'O'`, `findMove` picks the engine's next step in three stages.

1. `searchSimpleSolutions` scans the field in row-major order. It tries every empty
   cell with the engine's figure and then with the rival's, and asks `Game.winner`
   whether that placement wins. The engine's last winning cell comes first. Failing
   that, the rival's last winning cell, which then has to be blocked. Either one is
   rated by `Heuristic.stepRaiting`, with the engine's figure placed on it.
2. If the scan rates nothing, `minimaxRecursiveSearch` runs. It is a depth-first search
   over SEARCH_DEPTH = 5 alternating plies:
   - It places and rates each empty cell.
   - It adds the ratings along the path.
   - It records the best path total for the root cell the path starts from. Every
     node offers its partial path total once more after its cell loop (line 220), so
     internal nodes compete with the leaves, not only the leaves with each other.
   - A placement whose rating has absolute value above 1 is decisive: it is recorded
     at once and ends its node.
   - `rememberBestStep` keeps a new pair only when it strictly beats the stored
     rating: higher when the engine plays X, lower when it plays O.
3. If the search rates nothing, or its step names an occupied cell, `randomStep`
   draws a cell.

Modules:

- `Board`: the cell values and steps.
  - `Grid`, a value view of the field, with `Snapshot` of the mutable `array2<char>`.
  - `Place`, one cell write as a value, and `Put`, the same write on the array.
  - `Rules`: the two collaborators whose code is not part of this model. `Game.winner`
    and `Heuristic.stepRaiting` are given to the engine as functions of the field's
    contents.
- `BestStep`: the pair (bestStepRating, bestStep) and the strict-improvement rule.
- `Scanner`: the scan as a specification. `LastHit` gives the last winning cell before
  a loop position; `Scan` gives the state the scan leaves.
- `Search`: the search as a specification. Three mutually recursive functions cover a
  node (`Node`), its cell loop (`Cells`) and one empty cell (`Explore`), followed by
  lemmas about them.
- `RandomMove`: the acceptance test of `randomStep`, as written and as intended.
- `MinimaxEngine`: the class `Minimax`, whose methods work in place on the
  `array2<char>` field and the fields `bestStepRating` and `bestStep`. Each method is
  proved against the specification functions above. It also holds `Decide`, the route
  `findMove` takes.

## Model

| member | source | states |
|---|---|---|
| Board.Place | org/hexlet/gamexo/ai/minimaxway/Minimax.java:148-152 | writing a figure into a cell changes that cell only and keeps the field's shape |
| Board.PlaceThenUndo | org/hexlet/gamexo/ai/minimaxway/Minimax.java:211-212 | writing the old value back after a placement restores the field exactly |
| Board.PlaceTwice | org/hexlet/gamexo/ai/minimaxway/Minimax.java:148-150 | a second write on the same cell replaces the first, so the rival's trial sees the field with only the rival's figure added |
| BestStep.Remember | org/hexlet/gamexo/ai/minimaxway/Minimax.java:223-229 | only the offered pair can be recorded, and only when it strictly beats the stored rating for the engine's side; a strictly better offer is always taken; the stored rating never gets worse; a tie keeps the earlier step |
| BestStep.RememberIdempotent | org/hexlet/gamexo/ai/minimaxway/Minimax.java:216-220 | offering the same pair twice (the empty-field case) has the effect of offering it once |
| Scanner.LastHit | org/hexlet/gamexo/ai/minimaxway/Minimax.java:144-155 | the winner step held after visiting the cells before a position is NoStep or an empty cell before that position |
| Scanner.LastHitIsLast | org/hexlet/gamexo/ai/minimaxway/Minimax.java:144-155 | the winner step is NoStep exactly when no earlier cell wins for the figure; otherwise it is a winning empty cell and no later visited cell wins |
| Scanner.Scan | org/hexlet/gamexo/ai/minimaxway/Minimax.java:134-170 | the scan leaves the state alone or records an empty cell of the field |
| Scanner.OwnWinBeatsBlock | org/hexlet/gamexo/ai/minimaxway/Minimax.java:157-169 | if the engine can win at once, its last such cell is chosen; only if it cannot is the rival's last winning cell chosen; with neither, nothing changes |
| Search.MarksAlternate | org/hexlet/gamexo/ai/minimaxway/Minimax.java:191-202 | the root ply places the engine's figure and each deeper ply places the other figure |
| Search.NodeKeepsBestSound | org/hexlet/gamexo/ai/minimaxway/Minimax.java:183-221 | after a search the stored rating is no worse, and a nonzero rating always comes with an empty cell of the root field |
| Search.CellsKeepBestSound | org/hexlet/gamexo/ai/minimaxway/Minimax.java:186-215 | the same for a node's cell loop from any position; the candidate it ends with is an empty root cell or the one it was given |
| Search.ExploreKeepsBestSound | org/hexlet/gamexo/ai/minimaxway/Minimax.java:188-213 | the same for one explored cell; the candidate passed on is always an empty root cell |
| Search.NodeBelowRootRecordsCandidate | org/hexlet/gamexo/ai/minimaxway/Minimax.java:195-196 | below the root a search records nothing or records the candidate step it was given |
| Search.CellsBelowRootKeepCandidate | org/hexlet/gamexo/ai/minimaxway/Minimax.java:186-215 | below the root the cell loop never changes the candidate and records nothing else |
| Search.ExploreBelowRootKeepsCandidate | org/hexlet/gamexo/ai/minimaxway/Minimax.java:188-213 | below the root one explored cell keeps the candidate and records nothing else |
| Search.DecisiveEndsNode | org/hexlet/gamexo/ai/minimaxway/Minimax.java:205-209 | a placement rated above 1 in absolute value is offered with the path's total, ends the node's loop, and at the root becomes the candidate |
| Board.Put | org/hexlet/gamexo/ai/minimaxway/Minimax.java:148-152 | one write into a cell of the array: the array's value becomes the placement of the mark on the old value |
| Scanner.Hit | org/hexlet/gamexo/ai/minimaxway/Minimax.java:146-151 | the scan's test for one cell: it is empty and the figure placed there makes `Game.winner` report that figure |
| Search.Mark | org/hexlet/gamexo/ai/minimaxway/Minimax.java:191-202 | the figure placed at a remaining depth is X or O, and it is the engine's exactly when SEARCH_DEPTH - depth is even |
| Search.Node | org/hexlet/gamexo/ai/minimaxway/Minimax.java:183-221 | one call of the search: at depth 0 the path total is offered for the candidate; otherwise the cell loop runs, a decisive cell returns at once without the line-220 offer, and otherwise the path total is offered again after the loop (twice when no empty cell was found, lines 216-220) |
| Search.Cells | org/hexlet/gamexo/ai/minimaxway/Minimax.java:186-215 | the cell loop from a position in row-major order: occupied cells are skipped, each empty cell is explored and the candidate it returns is passed on, and a decisive cell ends the loop |
| Search.Explore | org/hexlet/gamexo/ai/minimaxway/Minimax.java:188-213 | one empty cell: this ply's figure is placed, the root ply takes the cell as candidate, the rating is added to the path total, and a rating above 1 in absolute value is offered at once, otherwise the subtree one ply deeper is searched |
| RandomMove.AcceptsAsWritten | org/hexlet/gamexo/ai/minimaxway/Minimax.java:241 | the acceptance test as written: the diagonal cell of the drawn column is empty |
| RandomMove.AsWrittenAcceptsOccupiedCell | org/hexlet/gamexo/ai/minimaxway/Minimax.java:241 | the written test accepts a draw whose own cell is occupied |
| RandomMove.AsWrittenRejectsEveryDraw | org/hexlet/gamexo/ai/minimaxway/Minimax.java:241 | on a field with empty cells, the written test can reject every draw, so the loop never ends |
| RandomMove.AcceptsExactlyEmptyCells | org/hexlet/gamexo/ai/minimaxway/Minimax.java:235-246 | the intended test accepts some draw exactly when the field has an empty cell, and accepts only empty cells |
| MinimaxEngine.Decide | org/hexlet/gamexo/ai/minimaxway/Minimax.java:112-128 | a scan or search decision is a nonzero-rated empty cell; the random fallback happens only when both the scan and the search rated nothing, so the occupied-cell test at line 124 never decides |
| MinimaxEngine.ImmediateWinBeforeBlock | org/hexlet/gamexo/ai/minimaxway/Minimax.java:118-119 | an immediate decision is the engine's own winning cell when one exists, else a cell where the rival would win |
| MinimaxEngine.Minimax.constructor | org/hexlet/gamexo/ai/minimaxway/Minimax.java:102-104 | the engine keeps its figure and starts from rating 0 and step {-1, -1} |
| MinimaxEngine.Minimax.FindMove | org/hexlet/gamexo/ai/minimaxway/Minimax.java:112-128 | the field is unchanged; the returned step is the stored step and an empty cell; the outcome is the route chosen by Decide for the field, whatever an earlier call left behind |
| MinimaxEngine.Minimax.SearchSimpleSolutions | org/hexlet/gamexo/ai/minimaxway/Minimax.java:134-170 | the field is unchanged and the state is Scan's |
| MinimaxEngine.Minimax.FindWinningCells | org/hexlet/gamexo/ai/minimaxway/Minimax.java:144-155 | the field is unchanged and the two winner steps are the last winning cells of the whole field |
| MinimaxEngine.Minimax.ScanRow | org/hexlet/gamexo/ai/minimaxway/Minimax.java:145-154 | one row of the scan moves both winner steps from the start of the row to the start of the next row |
| MinimaxEngine.Minimax.TryStep | org/hexlet/gamexo/ai/minimaxway/Minimax.java:146-153 | trying an empty cell reports exactly whether each figure wins there, and leaves the field as it was |
| MinimaxEngine.Minimax.RateOwnFigureAt | org/hexlet/gamexo/ai/minimaxway/Minimax.java:159-161 | the rating is the heuristic's at ply 1 for the field with the engine's figure on the cell; the field is as it was |
| MinimaxEngine.Minimax.MinimaxRecursiveSearch | org/hexlet/gamexo/ai/minimaxway/Minimax.java:183-221 | the field is restored on every way out, the early return included, and the state is Node's |
| MinimaxEngine.Minimax.ExploreCell | org/hexlet/gamexo/ai/minimaxway/Minimax.java:188-213 | the cell is emptied again; the state, the candidate and the early-return flag are Explore's |
| MinimaxEngine.Minimax.RememberBestStep | org/hexlet/gamexo/ai/minimaxway/Minimax.java:223-229 | the state becomes Remember's |
| MinimaxEngine.Minimax.RandomStep | org/hexlet/gamexo/ai/minimaxway/Minimax.java:235-246 | the corrected fallback: the stored step becomes an empty cell of the field, and the rating is untouched |

## Left out

- The JUnit test, the console front end and the file logging (lines 250-437) are not part of the engine.
- The commented-out random dummy (lines 66-95), the unused `worstCaseStepRating` and `VALUE_DRAW`, and the `IBrainAI` interface are not modelled.
- `Game.winner` and `Heuristic.stepRaiting` are not part of this model. They are the arrow functions in `Rules`, applied to a value copy of the field, so the model assumes they neither change the field nor depend on anything else.
- The field is a rectangular `array2<char>`. Jagged Java `char[][]` rows are not modelled.
- MinimaxEngine.Minimax.FindMove: requires a square field with at least one empty cell. `randomStep` draws columns from the row count, and on a full field its loop never ends.
- MinimaxEngine.Minimax.RandomStep: models the intended acceptance test rather than the one at line 241 (see Findings). It chooses any empty cell nondeterministically. The `java.util.Random` distribution and the rejection loop are not modelled.
- MinimaxEngine.Minimax.MinimaxRecursiveSearch: ratings are unbounded integers. The 32-bit wrap-around of `rating + stepRating` is not modelled, nor is `Math.abs(stepRating) > 1` at line 205 being false for `Integer.MIN_VALUE` (Java's `Math.abs` returns that negative value), where the model's `Abs` ends the node early and Java recurses.
- MinimaxEngine.Minimax.FindMove: models the test `Math.abs(bestStepRating) > 0` as `bestStepRating != 0`. The two differ only at `Integer.MIN_VALUE`, for the same reason.
- Steps are values. The Java `int[]` steps are shared arrays, and `findMove` resets `bestStep` by writing -1 into the array it returned on the previous call. That aliasing is not modelled.

## Findings

| source | as written | input that shows it | evidently intended | confidence | as-written member | corrected member |
|---|---|---|---|---|---|---|
| org/hexlet/gamexo/ai/minimaxway/Minimax.java:241 | the rejection loop of `randomStep` accepts a draw when `field[col][col]`, the diagonal cell of the drawn column, is empty, then returns the drawn (row, col) | field `_ _ / X _` with draw (1, 0) returns the occupied cell (1, 0); field `X _ / _ O` has empty cells, but no draw is ever accepted | accept the draw when `field[row][col]` is empty | not executed | RandomMove.AsWrittenAcceptsOccupiedCell, RandomMove.AsWrittenRejectsEveryDraw | MinimaxEngine.Minimax.RandomStep |
