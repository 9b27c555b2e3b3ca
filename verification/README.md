# N-queens board: a Dafny model

This project models the board logic of the N-queens game `NReines`. The
player clicks cells of an N×N board (`Plateau`) to place or remove queens.
Two buttons query the board:

- *Valider* asks whether the placement is legal. When it is not, the game
  marks the queens responsible for the conflict.
- *Indice* asks whether the placement can still be completed. When it can,
  the game shows a next move.

The model keeps only the occupancy of the cells and the algorithms over them.

- `Board` (board.dfy): the board is a square `seq<seq<bool>>` of side N.
  It has the set of occupied cells (`Queens`), the set of free cells, the
  fresh empty board, and the toggle of one cell (`Case.clicGauche`).
- `Lines` (lines.dfy): the rows, columns, diagonals (cells `(i, i+k)`) and
  anti-diagonals (cells `(N-1-i, i+k)`).
  - The `[min, max)` index range of the diagonal counters.
  - The counters `compteLigne`, `compteColonne`, `compteDiagonale` and
    `compteAntidiagonale`, including the two diagonal loops exactly as
    written.
  - `compteToutesReines`, which sums the row counts.
- `Sets` (sets.dfy): generic cardinality facts about finite sets used by
  the proofs.
- `Configuration` (configuration.dfy): `verifieConfiguration`, the
  conjunction of the four family checks. It holds exactly when no two queens
  attack each other. Skipping the one-cell diagonals loses nothing. A legal
  board holds at most N queens.
- `Solver` (solver.dfy): `verifieResolubilite` as the pure function
  `Solve(g): Outcome`, where `Outcome = Unsolvable | AlreadyComplete | NextMove(row, col)`.
  - It is mutually recursive with `Search`, which models the two nested loops.
  - It terminates because each recursive call occupies one free cell, so the
    set of free cells strictly shrinks.
  - It does not answer Unsolvable exactly when the placement extends to a
    full N-queens solution (`SolveCorrect`). On an incomplete board that
    answer is a move: the first free cell in row-major order that leads to
    one. A complete legal board is answered `AlreadyComplete`.
- `Threats` (threats.dfy): the occupancy part of `afficheThreateningQueens`,
  as the set of queens whose single removal makes the board legal. The
  module also states its known limitation.
- `InPlace` (inplace.dfy): the same queries on a mutable `array2<bool>`,
  which toggle cells and toggle them back. They prove two things:
  - every cell ends as it began;
  - the hint fields `indiceL`/`indiceC` are written as the source writes
    them.

Three conventions of the code that the model keeps:

- The anti-diagonal of index k holds the cells `(N-1-i, i+k)`, whose
  row + column is N-1+k. The index is not the usual row + column.
- When `verifieResolubilite` answers false, the hint fields keep their
  previous values; nothing clears them. `InPlace.Resolubility` proves this.
- `compteDiagonale`/`compteAntidiagonale` are meant for -N < k < N but accept
  any k other than `Integer.MIN_VALUE`, whose negation wraps around. Outside
  that range the loop is empty and the count is 0. The callers only pass
  2-N <= k < N-1.

## Model

| member | source | states |
|---|---|---|
| `Board.Empty` | NReines.java:155-166 | a new board is N×N and has no queen; every cell is free |
| `Board.Toggle` | NReines.java:430-431 | a click flips the occupancy of exactly that cell; every other cell is unchanged and the board stays N×N |
| `Board.ToggleTwice` | NReines.java:429-431 | clicking the same cell twice gives back the original board |
| `Board.ToggleQueens` | NReines.java:425-431 | toggling an occupied cell removes exactly it from the queens and adds it to the free cells; toggling a free cell does the reverse |
| `Lines.DiagonalRange` | NReines.java:273-283 | `[min, max)` is exactly the set of i for which i and i+k are both coordinates, so also N-1-i; for -N < k < N the range is non-empty and within `[0, N)` |
| `Lines.CountLine` | NReines.java:211-246 | the count of a row, column, diagonal or anti-diagonal equals the number of queens standing on that line |
| `Lines.CountDiagonal` | NReines.java:271-290 | the loop as written reads only cells on the board and returns the number of queens on diagonal k (cells with column - row = k) |
| `Lines.CountAntiDiagonal` | NReines.java:304-322 | the loop as written reads only cells on the board and returns the number of queens on anti-diagonal k (cells with row + column = N-1+k) |
| `Lines.RowSplit` | NReines.java:337-341 | the queens of the first m rows are those of the first m-1 rows plus those of row m-1, disjointly, so one more row adds exactly its row count |
| `Lines.SumRowsIsCardinality` | NReines.java:337-341 | after m iterations the running sum `SumRows` of `compteToutesReines` equals the number of queens in the first m rows |
| `Lines.CountAll` | NReines.java:333-343 | the sum of the row counts equals the total number of occupied cells |
| `Configuration.AtMostOneOnLine` | NReines.java:223-234 | a line holds at most one queen if and only if any two queens on it are the same queen |
| `Configuration.RowsOkMeaning` | NReines.java:227-234 | `verifieLignes` passes if and only if no two distinct queens share a row |
| `Configuration.ColumnsOkMeaning` | NReines.java:252-259 | `verifieColonnes` passes if and only if no two distinct queens share a column |
| `Configuration.DiagonalsOkPairwise` | NReines.java:292-302 | when `verifieDiagonales` passes, no two distinct queens share a diagonal (equal column - row), the unexamined one-cell diagonals included |
| `Configuration.PairwiseDiagonalsOk` | NReines.java:292-302 | when no two distinct queens share a diagonal, `verifieDiagonales` passes |
| `Configuration.DiagonalsOkMeaning` | NReines.java:292-302 | `verifieDiagonales` passes if and only if no two distinct queens share a diagonal |
| `Configuration.AntiDiagonalsOkPairwise` | NReines.java:324-331 | when `verifieAntidiagonales` passes, no two distinct queens share an anti-diagonal (equal row + column), the unexamined one-cell anti-diagonals included |
| `Configuration.PairwiseAntiDiagonalsOk` | NReines.java:324-331 | when no two distinct queens share an anti-diagonal, `verifieAntidiagonales` passes |
| `Configuration.AntiDiagonalsOkMeaning` | NReines.java:324-331 | `verifieAntidiagonales` passes if and only if no two distinct queens share an anti-diagonal |
| `Configuration.ExtremeDiagonalsHoldOneCell` | NReines.java:293-295 | the diagonals and anti-diagonals of index 1-N and N-1 count at most one queen |
| `Configuration.SkippedDiagonalsAreSafe` | NReines.java:292-331 | the diagonal and anti-diagonal checks over 2-N <= k < N-1 agree with the same checks over every -N < k < N |
| `Configuration.FamiliesCoverAllLines` | NReines.java:227-331 | when the four family checks pass, every row, column, diagonal and anti-diagonal of the board holds at most one queen, the one-cell diagonals included |
| `Configuration.AllLinesNonAttacking` | NReines.java:172-174 | when every line holds at most one queen, no two distinct queens attack each other |
| `Configuration.NonAttackingAllLines` | NReines.java:172-174 | when no two distinct queens attack each other, every line holds at most one queen |
| `Configuration.FamiliesCharacterisation` | NReines.java:227-331 | the four family checks hold together if and only if every line holds at most one queen, if and only if no two distinct queens attack each other |
| `Configuration.IsValid` | NReines.java:172-174 | `verifieConfiguration` is true if and only if no two distinct queens share a row, column, diagonal or anti-diagonal |
| `Configuration.ValidHasAtMostNQueens` | NReines.java:368 | a legal board holds at most N queens, so on a legal board "count is not N" means "fewer than N" |
| `Configuration.EmptyIsValid` | NReines.java:160-166 | a fresh board is legal and holds no queen |
| `Solver.Solve` | NReines.java:364-372 | an illegal board is Unsolvable; the answer is AlreadyComplete exactly on a legal board with N queens; a move is a free cell, offered only on a legal board with fewer than N queens |
| `Solver.Search` | NReines.java:373-388 | the nested search never answers AlreadyComplete; any move it answers is a free cell at or after its starting cell |
| `Solver.SearchAnswersLead` | NReines.java:374-388 | any move the search answers is a free cell whose occupation leaves a solvable board |
| `Solver.SearchAnswersFirst` | NReines.java:374-388 | when some cell at or after the start leads to a solvable board, the search answers a move, and no such cell comes before it |
| `Solver.SearchFindsFirst` | NReines.java:374-388 | the search from (r, c) answers a cell whose occupation leaves a solvable board; it answers Unsolvable only when no such cell lies at or after (r, c); the answered cell precedes every other such cell |
| `Solver.SolveHint` | NReines.java:373-383 | the hint is free, keeps the board legal, leaves a solvable board when occupied, and is the first such free cell in row-major order; Unsolvable on a legal incomplete board means no free cell leads to a solution |
| `Solver.SolveSound` | NReines.java:364-389 | a true answer means the placement extends to a legal board with N queens that keeps every queen already placed |
| `Solver.SolveComplete` | NReines.java:364-389 | every placement that extends to an N-queens solution gets a true answer |
| `Solver.SolveCorrect` | NReines.java:355-389 | the answer is true if and only if the placement can be completed to an N-queens solution |
| `Solver.OneByOne` | NReines.java:364-383 | on a 1×1 board the empty placement gets the move (0, 0), and after that move the board is complete |
| `Solver.TwoByTwoUnsolvable` | NReines.java:364-389 | every placement on a 2×2 board is answered false |
| `Solver.ThreeByThreeUnsolvable` | NReines.java:364-389 | every placement on a 3×3 board is answered false |
| `Solver.FourByFourSolvable` | NReines.java:364-389 | the empty 4×4 board gets a move |
| `Threats.ThreateningQueens` | NReines.java:181-197 | only occupied cells are marked |
| `Threats.ValidMarksEveryQueen` | NReines.java:181-197 | on a legal board, freeing any one queen keeps it legal, so every queen would be marked |
| `Threats.MarkedQueenInEveryConflict` | NReines.java:184-189 | a marked queen belongs to every pair of queens in conflict |
| `Threats.QueenInEveryConflictIsMarked` | NReines.java:181-197 | a queen that takes part in every conflict of the board is marked, since freeing it leaves the board legal |
| `Threats.MarkedExactly` | NReines.java:176-197 | a queen is marked if and only if it takes part in every conflict of the board |
| `Threats.SingleConflictMarksBoth` | NReines.java:176-179 | when the board's only conflict is between u and v, exactly u and v are marked |
| `Threats.MarkedQueensAreInConflict` | NReines.java:176-197 | on an illegal board every marked queen attacks some other queen |
| `Threats.AtMostTwoMarked` | NReines.java:176-179 | on an illegal board at most two queens are marked; when two are marked, they attack each other and form the only conflict on the board |
| `Threats.MutualTriangleMarksNothing` | NReines.java:176-179 | three queens that attack each other pairwise make the board illegal, yet no queen is marked |
| `InPlace.Click` | NReines.java:430-438 | clicking a cell of the stored board toggles exactly that cell |
| `InPlace.Resolubility` | NReines.java:364-389 | the in-place search answers true exactly when `Solve` does not answer Unsolvable; it writes (-1, -1) on a complete board and the move otherwise; it leaves the hint untouched on false; it restores every cell |
| `InPlace.ScanRow` | NReines.java:375-386 | the inner loop over row y answers the first cell of the row that leads to a solvable board, or reports none so the search continues with the next row; every cell ends as it began |
| `InPlace.TryCell` | NReines.java:376-383 | occupying a free cell, asking the query and freeing the cell again answers whether the occupied board is solvable, and leaves the board as it was |
| `InPlace.MarkThreatening` | NReines.java:181-197 | the in-place scan returns exactly `ThreateningQueens` of the board it started from, and restores every cell |

## Left out

- Colours and display: `setBackground`, `updateQueenDisplay`, the painting in `afficheIndice`, and the red/black colouring in `afficheThreateningQueens`. These are presentation only. The model keeps which cells would be marked.
- `Validation`, `Indice`, `NReines.main` and the `IG.Fenetre`/`IG.Grille`/`IG.ZoneCliquable` superclasses. These are window and event wiring around a graphics library that is not part of this model.
- Reading the board size from the command line (`Integer.parseInt`, default 8). This is input handling. The size is a parameter, and a negative size is excluded by `nat`.
- Java `int` arithmetic is modelled with unbounded integers. The counts never exceed N², so wrap-around in them would need a board side above 46340. `Lines.CountDiagonal` and `Lines.CountAntiDiagonal` return 0 for k = `Integer.MIN_VALUE`, where the Java `-k` wraps to `Integer.MIN_VALUE` and the loop indexes outside the array; the program never passes that k.
- The early `return false` of the family loops is modelled as a quantified conjunction. Both give the same boolean.
- `InPlace.Resolubility` and `InPlace.MarkThreatening` evaluate legality and the queen count with the functional `IsValid` and `CountAll` on a snapshot of the array. They do not re-run the counting loops over the array. The loops themselves are modelled on the grid in `Lines`.
- Performance of the exponential search is not modelled. Only its answer and its termination are.
- `Threats.ThreateningQueens`: its own contract states only that marked cells are occupied. `Threats.MarkedExactly` states what marking means: a queen is marked exactly when it takes part in every conflict.
