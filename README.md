# Sudoku board-state engine

A model of the board-state engine of the Sudoku solver's single React component
(`App` in `frontend/src/App.jsx`). It covers:

- the 9x9 board, where -1 marks an empty cell;
- the row, column and 3x3-block duplicate checks;
- the cell-edit handler;
- the fullness test;
- the snapshot (`prevGrid`) and the unfilled-position set taken before each solve or hint request;
- the four error flags and the `submitted` flag;
- the solve, hint, unsolve and reset handlers, and the cell-highlight predicate.

Three modules mirror the layers of the component:

- `Board` (board.dfy) — the board as a `seq<seq<int>>`, and the placement rules as predicates. It also defines `UnfilledList`, the row-major list of empty positions, and the two loops the source writes over a board: `CreateEmptyGrid` and `IsFull`.
- `Session` (session.dfy) — the component's state as one value (`State`), and each handler's effect as a pure function of the old state. The solver's reply is an `Outcome` parameter, and the random pick is an index parameter. The lemmas about these functions state what the handlers guarantee.
- `App` (app.dfy) — class `SudokuApp`, whose fields are the component's state hooks. Each handler is a method that overwrites the fields. Each is proved to leave the object in exactly the state the matching `Session` function gives. The duplicate checks and the empty-position scan are loops over the `grid` field.

The source never edits a board in place. Every handler builds an updated copy and stores it. So `grid` and `prevGrid` are value fields that the methods reassign.

Where the code and the design description disagree, the model follows the code:

- The four error flags are not mutually exclusive. A `0` typed while another flag is up raises the digit flag on top of it (`Session.OutOfRangeRaisesSecondFlag`).
- The hint handler's catch block, as written, is a second exception. It stops right after raising `serverError` (see Findings), so a failing hint after an unsolvable solve leaves `solveError` and `serverError` both up (`Session.HintAsWrittenKeepsStaleFlags`). The class uses the completed catch block, and under it every transition other than the out-of-range edit keeps at most one flag up.
- The hint handler has no error-flag guard.
- A successful hint that leaves the board incomplete does not touch the flags or `submitted`.
- A hint that fills the last empty cell empties the unfilled set, so nothing is highlighted afterwards.
- The duplicate checks scan the edited cell too, so re-entering a cell's own digit is rejected (`Session.EditSameDigitRejected`).

## Model

| member | source | states |
|---|---|---|
| `Board.EmptyGrid` | frontend/src/App.jsx:11-20 | the empty board is 9x9 with every cell -1 |
| `Board.CreateEmptyGrid` | frontend/src/App.jsx:11-20 | the nested loop builds exactly the empty board |
| `Board.IsFull` | frontend/src/App.jsx:100-107 | returns true iff no cell of the board is -1 |
| `Board.SetCell` | frontend/src/App.jsx:89-90 | the copied board holds `v` at (r, c) and equals the old board at every other cell |
| `Board.BlockStart` | frontend/src/App.jsx:126-127 | the block's first row/column is a multiple of 3, at most 6, and the scanned three rows/columns contain the given one |
| `Board.UnfilledListFacts` | frontend/src/App.jsx:176-189 | the collected positions are exactly the empty cells, in strict row-major order (so each appears once); the list is empty iff the board is full |
| `Board.SameDigitIsDuplicate` | frontend/src/App.jsx:110-137 | a cell's own digit is always found by all three checks, because they scan the target cell |
| `Board.PlaceKeepsConsistent` | frontend/src/App.jsx:79-91 | writing a digit that passed the three checks keeps a board with no repeated digit in any row, column or block free of repeats |
| `Board.ClearKeepsConsistent` | frontend/src/App.jsx:40-44 | emptying a cell keeps a repeat-free board repeat-free |
| `App.SudokuApp.constructor` | frontend/src/App.jsx:22-33 | the initial state: two empty boards, an empty set, every flag false |
| `App.SudokuApp.CheckRow` | frontend/src/App.jsx:110-112 | true iff the digit occurs in row `row` of the current board |
| `App.SudokuApp.CheckCol` | frontend/src/App.jsx:115-122 | true iff the digit occurs in column `col` of the current board |
| `App.SudokuApp.CheckBlock` | frontend/src/App.jsx:125-137 | true iff the digit occurs in rows [⌊r/3⌋·3, +3) × columns [⌊c/3⌋·3, +3) of the current board |
| `App.SudokuApp.UnfilledPositions` | frontend/src/App.jsx:176-188 | the nested scan returns the row-major list of empty positions |
| `App.SudokuApp.TakeSnapshot` | frontend/src/App.jsx:172-189 | `prevGrid` becomes the board and the set becomes the board's empty cells; returns them in collection order |
| `App.SudokuApp.UpdateGrid` | frontend/src/App.jsx:35-98 | the new state is `Session.Edit` of the old one |
| `App.SudokuApp.HandleSubmit` | frontend/src/App.jsx:166-231 | the new state is `Session.Submit` of the old one |
| `App.SudokuApp.HandleHint` | frontend/src/App.jsx:257-333 | the new state is `Session.Hint` of the old one (the catch block completed, see Findings) |
| `App.SudokuApp.HandleUnsolve` | frontend/src/App.jsx:233-241 | the new state is `Session.Unsolve` of the old one |
| `App.SudokuApp.HandleReset` | frontend/src/App.jsx:243-251 | the new state is `Session.Reset` of the old one |
| `App.SudokuApp.ShouldHighlightCell` | frontend/src/App.jsx:336-342 | the highlight predicate of the object's state: submitted and (r, c) in the unfilled set |
| `Session.Edit` | frontend/src/App.jsx:35-98 | an edit touches no cell but (r, c) and never the snapshot; `submitted` ends true only on a full board with the set emptied; otherwise the set is kept |
| `Session.Submit` | frontend/src/App.jsx:166-231 | the board changes only to a received solution, and then `submitted` is true |
| `Session.HintWith` | frontend/src/App.jsx:257-333 | the hint handler with either catch block always snapshots the board, and the board changes only on a solution |
| `Session.Hint` | frontend/src/App.jsx:257-333 | the same, for the hint handler with its catch block completed |
| `Session.HintAsWritten` | frontend/src/App.jsx:257-333 | the same, for the hint handler as written |
| `Session.ResetIsInitial` | frontend/src/App.jsx:243-251 | reset gives the initial state except that `prevGrid` is kept: all cells -1, empty set, `submitted` and all four flags false |
| `Session.UnsolveRestores` | frontend/src/App.jsx:233-241 | unsolve makes the board equal to `prevGrid`, empties the set, clears `submitted` and the flags, so no cell is highlighted |
| `Session.SubmitThenUnsolve` | frontend/src/App.jsx:166-241 | after a solve that goes ahead, unsolve restores the pre-request board, whatever the service answered |
| `Session.HintThenUnsolve` | frontend/src/App.jsx:257-333 | after any hint, unsolve restores the pre-request board |
| `Session.HighlightAfterSolve` | frontend/src/App.jsx:336-342 | after a successful solve, (r, c) is highlighted iff it is on the board and was empty when the request left |
| `Session.EditRejectsDuplicate` | frontend/src/App.jsx:73-86 | a digit 1-9 hitting a check leaves the board, set and snapshot alone; `duplicateError` is the only flag set and `submitted` is false |
| `Session.EditSameDigitRejected` | frontend/src/App.jsx:110-137 | re-entering the digit a cell holds is rejected as a duplicate and the board is kept |
| `Session.EditAcceptsDigit` | frontend/src/App.jsx:88-97 | an accepted digit changes only cell (r, c), to that digit; all flags end false; `submitted` ends true iff the new board has no -1, and then the set is emptied, otherwise kept |
| `Session.FullIffNothingUnset` | frontend/src/App.jsx:100-107 | a board is full iff its set of empty cells is empty |
| `Session.EditOtherInputs` | frontend/src/App.jsx:36-71 | empty input writes -1 at (r, c) and clears all flags and `submitted`; a non-number raises only `NaNError`; an integer outside 1-9 raises `NaNError`, keeps the other flags and the board, and clears `submitted` |
| `Session.EditKeepsConsistent` | frontend/src/App.jsx:35-98 | no edit ever stores a digit that repeats in its row, column or block: a repeat-free board stays repeat-free |
| `Session.SubmitGuarded` | frontend/src/App.jsx:167-169 | with `duplicateError` or `NaNError` up, solving changes nothing at all |
| `Session.SubmitOutcomes` | frontend/src/App.jsx:171-230 | otherwise `prevGrid` becomes the board and the set is exactly the -1 cells. A solution replaces the board, sets `submitted` and clears all flags. No solution sets only `solveError`. A failure sets only `serverError`. In both failure cases the board is kept and `submitted` is false |
| `Session.HintRevealsOneCell` | frontend/src/App.jsx:290-312 | on a non-full board a solution changes exactly the chosen member of the fresh empty-cell list, to the solution's value there. The flags are kept. A full result sets `submitted` and empties the set. Otherwise `submitted` is kept and the set is the pre-hint empty cells |
| `Session.HintLastCell` | frontend/src/App.jsx:304-311 | revealing the only empty cell (with a filled solution value) makes the board full, sets `submitted` and empties the set |
| `Session.HintKeepsFilledCells` | frontend/src/App.jsx:291-306 | a hint never alters a cell that was filled before it |
| `Session.HintCaught` | frontend/src/App.jsx:323-330 | a failed hint, or a solution for a full board (nothing to pick throws), keeps the board and leaves `serverError` as the only flag, with `submitted` false |
| `Session.HintRecordsUnfilled` | frontend/src/App.jsx:265-278 | every hint outcome records the board's -1 cells as the set; only a reveal that completes the board empties it again |
| `Session.HintAsWrittenKeepsStaleFlags` | frontend/src/App.jsx:323-330 | as written, a failing hint right after a solve with no solution leaves `solveError` set beside `serverError` (two flags); the completed catch leaves `serverError` alone |
| `Session.EditCellsInRange` | frontend/src/App.jsx:35-98 | edits leave every cell at -1 or a digit 1-9 |
| `Session.RequestCellsInRange` | frontend/src/App.jsx:166-333 | solves and hints keep the board and the snapshot at -1 or digits when the service answers with digits |
| `Session.CellsInRangeInvariant` | frontend/src/App.jsx:35-333 | every transition (edit, solve, hint, unsolve and reset) keeps both boards at -1 or digits 1-9, given a service answering in digits |
| `Session.EditAtMostOneError` | frontend/src/App.jsx:36-98 | an edit other than an out-of-range integer keeps at most one error flag up |
| `Session.RequestAtMostOneError` | frontend/src/App.jsx:166-251 | solve, hint, unsolve and reset keep at most one error flag up |
| `Session.OutOfRangeRaisesSecondFlag` | frontend/src/App.jsx:67-71 | a `0` typed while `duplicateError` is set leaves two flags set |
| `Session.RowConflictScenario` | frontend/src/App.jsx:73-91 | 5 at (0,0) of an empty board is stored with no error; a second 5 at (0,1) is refused as a duplicate and the board is kept |

## Left out

- The network request (`fetch`, JSON encoding, `await`) and the console logging are not modelled. The service's settlement is the `Outcome` parameter: `Solution(grid)` for a response with a truthy `solution`, `NoSolution` for a response without one, `Failure` for anything thrown while sending or parsing.
- Malformed solution payloads are left out, because the service promises a 9x9 array: the solve and hint handlers require `Solution` to carry one. A JavaScript-truthy non-board value, e.g. `[]`, would be stored as is by the solve handler. In the hint handler, reading `result.solution[rowIndex][colIndex]` from such a value throws, and control goes to the catch block.
- `Math.random` is replaced by a caller-supplied index into the row-major list of empty positions (the order `Array.from` gives for the set built by the scan).
- The JavaScript string coercions of the edit handler are folded into the `Input` datatype. `" "` passes `isNaN` and its `parseInt` is NaN, which would be stored; that case is not modelled. Inputs are assumed to reduce to `Empty`, `NonNumeric` or `Num(n)`.
- The highlight key string `"row-col"` is a pair `(row, col)`; the two are interchangeable for on-board positions.
- Rendering, `getCellBorderClasses`, the buttons' `disabled` wiring, `handleUpload` and the upload modal (frontend/components/upload.jsx) are presentation only.
- React's batched state updates, stale closures and overlapping solve/hint requests are concurrency with no defined behaviour. Each handler is one atomic step on the state it starts from.
- backend/app.py is not part of this model. It is request routing around a solver module that is not present.
- `Session.HintAsWritten`: the `ReferenceError` escaping the catch block is modelled only by its effect on the state (the remaining state updates never run), not as a rejected promise.

## Findings

| source | as written | input that shows it | evidently intended | confidence | as-written member | corrected member |
|---|---|---|---|---|---|---|
| frontend/src/App.jsx:323-330 | the hint handler's catch binds `err` but logs `error`, which is not in scope, so a `ReferenceError` is thrown right after `serverError` is raised and the flags and `submitted` are never cleared | a solve the service answers with no solution, then a hint whose request fails (or whose solution finds the board already full): `solveError` stays set beside `serverError` | the catch clears `solveError`, `duplicateError`, `NaNError` and `submitted`, as the solve handler's catch does | not executed; high (the catch parameter is `err` and no `error` is declared in the component) | `Session.HintAsWritten`, `Session.HintAsWrittenKeepsStaleFlags` | `Session.Hint`, `Session.HintCaught`, `Session.RequestAtMostOneError` |
