/** The state the App component keeps (the board, the pre-solve snapshot, the
    unfilled-position set, the submitted flag and four error flags) and the
    transition each handler applies to it, as functions of the old state. */
module Session {
  import opened Board

  /** What one keystroke in a cell amounts to once the browser has produced
      the one-character value: nothing, a non-number, or an integer. */
  datatype Input = Empty | NonNumeric | Num(n: int)

  /** How one request to the solving service settles. */
  datatype Outcome = Solution(solution: Grid) | NoSolution | Failure

  datatype State = State(
    grid: Grid,
    prevGrid: Grid,
    unfilled: set<Pos>,
    submitted: bool,
    nanError: bool,
    duplicateError: bool,
    solveError: bool,
    serverError: bool)

  predicate Valid(s: State) {
    IsGrid(s.grid) && IsGrid(s.prevGrid)
  }

  predicate NoErrors(s: State) {
    !s.nanError && !s.duplicateError && !s.solveError && !s.serverError
  }

  function ClearErrors(s: State): State {
    s.(nanError := false, duplicateError := false, solveError := false, serverError := false)
  }

  /** The values the component starts with. */
  function Initial(): State {
    State(EmptyGrid(), EmptyGrid(), {}, false, false, false, false, false)
  }

  /** `updateGrid(e, r, c)`: the cell edit handler. */
  function Edit(s: State, r: int, c: int, input: Input): (t: State)
    requires Valid(s) && InBounds(r, c)
    ensures Valid(t) && t.prevGrid == s.prevGrid
    ensures forall i, j :: InBounds(i, j) && (i != r || j != c) ==> t.grid[i][j] == s.grid[i][j]
    ensures t.submitted ==> Full(t.grid) && t.unfilled == {}
    ensures !t.submitted ==> t.unfilled == s.unfilled
  {
    var t := s.(submitted := false);
    match input
    case Empty => ClearErrors(t).(grid := SetCell(s.grid, r, c, Unset))
    case NonNumeric => ClearErrors(t).(nanError := true)
    case Num(n) =>
      if n < 1 || n > 9 then t.(nanError := true)
      else if Duplicate(s.grid, r, c, n) then ClearErrors(t).(duplicateError := true)
      else
        var g := SetCell(s.grid, r, c, n);
        if Full(g) then ClearErrors(t).(grid := g, submitted := true, unfilled := {})
        else ClearErrors(t).(grid := g)
  }

  /** What the solve and hint handlers record before sending the request. */
  function Snapshot(s: State): State
    requires Valid(s)
  {
    s.(prevGrid := s.grid, unfilled := UnfilledSet(s.grid))
  }

  /** The branch taken when the response carries no solution. */
  function NoSolutionState(t: State): State {
    ClearErrors(t).(solveError := true, submitted := false)
  }

  /** The catch block of the solve handler. */
  function ServiceFailureState(t: State): State {
    ClearErrors(t).(serverError := true, submitted := false)
  }

  /** `handleSubmit`, with the request's settlement given as `o`. */
  function Submit(s: State, o: Outcome): (t: State)
    requires Valid(s) && (o.Solution? ==> IsGrid(o.solution))
    ensures Valid(t)
    ensures t.grid != s.grid ==> o.Solution? && t.grid == o.solution && t.submitted
  {
    if s.duplicateError || s.nanError then s
    else
      var t := Snapshot(s);
      match o
      case Solution(sol) => ClearErrors(t).(grid := sol, submitted := true)
      case NoSolution => NoSolutionState(t)
      case Failure => ServiceFailureState(t)
  }

  /** What the hint handler demands of its inputs: a well-shaped solution and,
      when there is a position to reveal, an index into the position list. */
  predicate HintArgs(s: State, o: Outcome, i: nat)
    requires Valid(s)
  {
    o.Solution? ==> IsGrid(o.solution) && (|UnfilledList(s.grid)| > 0 ==> i < |UnfilledList(s.grid)|)
  }

  /** `handleHint`, with the settlement given as `o` and the random pick as the
      index `i` into the row-major list of empty positions. A solution for a
      full board leaves nothing to pick, which throws into the catch block.
      `catchClears` selects the catch block: false is the code as written,
      whose catch stops after raising `serverError`; true is the catch block
      that clears the other flags, as the solve handler's does. */
  function HintWith(s: State, o: Outcome, i: nat, catchClears: bool): (t: State)
    requires Valid(s) && HintArgs(s, o, i)
    ensures Valid(t) && t.prevGrid == s.grid
    ensures t.grid != s.grid ==> o.Solution?
  {
    var t := Snapshot(s);
    var caught := if catchClears then ServiceFailureState(t) else t.(serverError := true);
    var ps := UnfilledList(s.grid);
    match o
    case Solution(sol) =>
      if |ps| == 0 then caught
      else
        var p := ps[i];
        assert p in ps;
        var g := SetCell(s.grid, p.0, p.1, sol[p.0][p.1]);
        if Full(g) then t.(grid := g, submitted := true, unfilled := {})
        else t.(grid := g)
    case NoSolution => NoSolutionState(t)
    case Failure => caught
  }

  /** The hint handler as the source writes it. */
  function HintAsWritten(s: State, o: Outcome, i: nat): (t: State)
    requires Valid(s) && HintArgs(s, o, i)
    ensures Valid(t) && t.prevGrid == s.grid
    ensures t.grid != s.grid ==> o.Solution?
  {
    HintWith(s, o, i, false)
  }

  /** The hint handler with its catch block completed. */
  function Hint(s: State, o: Outcome, i: nat): (t: State)
    requires Valid(s) && HintArgs(s, o, i)
    ensures Valid(t) && t.prevGrid == s.grid
    ensures t.grid != s.grid ==> o.Solution?
  {
    HintWith(s, o, i, true)
  }

  /** `handleUnsolve`. */
  function Unsolve(s: State): State {
    ClearErrors(s).(grid := s.prevGrid, unfilled := {}, submitted := false)
  }

  /** `handleReset`. */
  function Reset(s: State): State {
    ClearErrors(s).(grid := EmptyGrid(), unfilled := {}, submitted := false)
  }

  /** `shouldHighlightCell(r, c)`. */
  predicate ShouldHighlight(s: State, r: int, c: int) {
    s.submitted && (r, c) in s.unfilled
  }

  // ---------------------------------------------------------------------------
  // Reset, unsolve, highlight

  /** Reset returns to the starting values, except that the snapshot is kept. */
  lemma ResetIsInitial(s: State)
    ensures Valid(s) ==> Valid(Reset(s))
    ensures Reset(s) == Initial().(prevGrid := s.prevGrid)
    ensures forall i, j :: InBounds(i, j) ==> Reset(s).grid[i][j] == Unset
    ensures NoErrors(Reset(s)) && !Reset(s).submitted && Reset(s).unfilled == {}
  {
  }

  /** Unsolve puts back the last snapshot and clears the flags and the set. */
  lemma UnsolveRestores(s: State)
    ensures Unsolve(s).grid == s.prevGrid && Unsolve(s).prevGrid == s.prevGrid
    ensures NoErrors(Unsolve(s)) && !Unsolve(s).submitted && Unsolve(s).unfilled == {}
    ensures forall r, c :: !ShouldHighlight(Unsolve(s), r, c)
  {
  }

  /** A solve that goes ahead can always be undone: whatever the service
      answered, unsolve brings back the board as it was when the request left. */
  lemma {:induction false} SubmitThenUnsolve(s: State, o: Outcome)
    requires Valid(s) && (o.Solution? ==> IsGrid(o.solution))
    requires !s.duplicateError && !s.nanError
    ensures Unsolve(Submit(s, o)).grid == s.grid
  {
    assert Submit(s, o).prevGrid == s.grid;
  }

  /** The same holds for a hint, which takes its snapshot unconditionally. */
  lemma {:induction false} HintThenUnsolve(s: State, o: Outcome, i: nat)
    requires Valid(s) && HintArgs(s, o, i)
    ensures Unsolve(Hint(s, o, i)).grid == s.grid
  {
    assert Hint(s, o, i).prevGrid == s.grid;
  }

  /** After a successful solve, exactly the cells that were empty when the
      request left are highlighted. */
  lemma {:induction false} HighlightAfterSolve(s: State, sol: Grid, r: int, c: int)
    requires Valid(s) && IsGrid(sol)
    requires !s.duplicateError && !s.nanError
    ensures ShouldHighlight(Submit(s, Solution(sol)), r, c) <==> InBounds(r, c) && s.grid[r][c] == Unset
  {
    var t := Submit(s, Solution(sol));
    assert t.submitted && t.unfilled == UnfilledSet(s.grid);
  }

  // ---------------------------------------------------------------------------
  // The edit handler

  /** A digit that repeats its row, column or block is never stored; the
      duplicate flag is the only one raised. */
  lemma {:induction false} EditRejectsDuplicate(s: State, r: int, c: int, n: int)
    requires Valid(s) && InBounds(r, c) && IsDigit(n) && Duplicate(s.grid, r, c, n)
    ensures Edit(s, r, c, Num(n)) == ClearErrors(s).(duplicateError := true, submitted := false)
    ensures Edit(s, r, c, Num(n)).grid == s.grid
  {
  }

  /** Re-entering the digit a cell already holds is rejected as a duplicate. */
  lemma {:induction false} EditSameDigitRejected(s: State, r: int, c: int)
    requires Valid(s) && InBounds(r, c) && IsDigit(s.grid[r][c])
    ensures Edit(s, r, c, Num(s.grid[r][c])).grid == s.grid
    ensures Edit(s, r, c, Num(s.grid[r][c])).duplicateError
  {
    SameDigitIsDuplicate(s.grid, r, c);
  }

  /** An accepted digit changes cell (r, c) only, clears every error flag, and
      marks the board submitted (with the set emptied) exactly when it is full. */
  lemma {:induction false} EditAcceptsDigit(s: State, r: int, c: int, n: int)
    requires Valid(s) && InBounds(r, c) && IsDigit(n) && !Duplicate(s.grid, r, c, n)
    ensures var t := Edit(s, r, c, Num(n));
      Valid(t) && t.grid[r][c] == n &&
      (forall i, j :: InBounds(i, j) && (i != r || j != c) ==> t.grid[i][j] == s.grid[i][j]) &&
      NoErrors(t) && t.prevGrid == s.prevGrid &&
      (t.submitted <==> UnfilledSet(t.grid) == {}) &&
      (if t.submitted then t.unfilled == {} else t.unfilled == s.unfilled)
  {
    var g := SetCell(s.grid, r, c, n);
    FullIffNothingUnset(g);
  }

  lemma {:induction false} FullIffNothingUnset(g: Grid)
    requires IsGrid(g)
    ensures Full(g) <==> UnfilledSet(g) == {}
  {
    if !Full(g) {
      var i, j :| 0 <= i < 9 && 0 <= j < 9 && g[i][j] == Unset;
      assert (i, j) in UnfilledSet(g);
    }
  }

  /** Emptying a cell writes -1 there and clears every flag; the other inputs
      leave the board alone: a non-number raises only the digit flag, and an
      out-of-range integer raises it on top of whatever flags were set. */
  lemma {:induction false} EditOtherInputs(s: State, r: int, c: int, n: int)
    requires Valid(s) && InBounds(r, c) && !IsDigit(n)
    ensures Edit(s, r, c, Empty) == ClearErrors(s).(grid := SetCell(s.grid, r, c, Unset), submitted := false)
    ensures Edit(s, r, c, NonNumeric) == ClearErrors(s).(nanError := true, submitted := false)
    ensures Edit(s, r, c, Num(n)) == s.(nanError := true, submitted := false)
  {
  }

  /** Edits never store a conflicting digit: a consistent board stays consistent. */
  lemma {:induction false} EditKeepsConsistent(s: State, r: int, c: int, input: Input)
    requires Valid(s) && InBounds(r, c) && Consistent(s.grid)
    ensures Valid(Edit(s, r, c, input)) && Consistent(Edit(s, r, c, input).grid)
  {
    match input
    case Empty => ClearKeepsConsistent(s.grid, r, c);
    case NonNumeric =>
    case Num(n) =>
      if IsDigit(n) && !Duplicate(s.grid, r, c, n) {
        PlaceKeepsConsistent(s.grid, r, c, n);
      }
  }

  // ---------------------------------------------------------------------------
  // The solve handler

  /** With the digit or duplicate flag up, solving does nothing at all. */
  lemma SubmitGuarded(s: State, o: Outcome)
    requires Valid(s) && (o.Solution? ==> IsGrid(o.solution))
    requires s.duplicateError || s.nanError
    ensures Submit(s, o) == s
  {
  }

  /** Otherwise the snapshot is taken, the set becomes exactly the empty cells,
      and each settlement raises its own flag (or none) and sets `submitted`. */
  lemma {:induction false} SubmitOutcomes(s: State, o: Outcome)
    requires Valid(s) && (o.Solution? ==> IsGrid(o.solution))
    requires !s.duplicateError && !s.nanError
    ensures var t := Submit(s, o);
      Valid(t) && t.prevGrid == s.grid &&
      (forall p :: p in t.unfilled <==> InBounds(p.0, p.1) && s.grid[p.0][p.1] == Unset) &&
      match o
      case Solution(sol) => t.grid == sol && t.submitted && NoErrors(t)
      case NoSolution =>
        t.grid == s.grid && !t.submitted && t.solveError &&
        !t.nanError && !t.duplicateError && !t.serverError
      case Failure =>
        t.grid == s.grid && !t.submitted && t.serverError &&
        !t.nanError && !t.duplicateError && !t.solveError
  {
    var t := Submit(s, o);
    assert t.unfilled == UnfilledSet(s.grid);
  }

  // ---------------------------------------------------------------------------
  // The hint handler

  /** A solution reveals exactly one cell: the chosen member of the freshly
      collected empty positions, set to the solution's value there. The flags
      are left as they were; the board is marked submitted, with the set
      emptied, when it has become full, and otherwise `submitted` is untouched. */
  lemma {:induction false} HintRevealsOneCell(s: State, sol: Grid, i: nat)
    requires Valid(s) && HintArgs(s, Solution(sol), i) && !Full(s.grid)
    ensures i < |UnfilledList(s.grid)|
    ensures var p := UnfilledList(s.grid)[i];
      var t := Hint(s, Solution(sol), i);
      p in UnfilledSet(s.grid) && Valid(t) && t.prevGrid == s.grid &&
      t.grid[p.0][p.1] == sol[p.0][p.1] &&
      (forall r, c :: InBounds(r, c) && (r, c) != p ==> t.grid[r][c] == s.grid[r][c]) &&
      t.nanError == s.nanError && t.duplicateError == s.duplicateError &&
      t.solveError == s.solveError && t.serverError == s.serverError &&
      (if Full(t.grid) then t.submitted && t.unfilled == {}
       else t.submitted == s.submitted && t.unfilled == UnfilledSet(s.grid))
  {
    UnfilledListFacts(s.grid);
    var p := UnfilledList(s.grid)[i];
    assert p in UnfilledList(s.grid);
  }

  /** Revealing the last empty cell completes the board: it is marked
      submitted and the set is emptied. */
  lemma {:induction false} HintLastCell(s: State, sol: Grid, i: nat, p: Pos)
    requires Valid(s) && HintArgs(s, Solution(sol), i)
    requires UnfilledSet(s.grid) == {p} && sol[p.0][p.1] != Unset
    ensures var t := Hint(s, Solution(sol), i);
      Full(t.grid) && t.submitted && t.unfilled == {} && t.grid[p.0][p.1] == sol[p.0][p.1]
  {
    assert p in UnfilledSet(s.grid);
    UnfilledListFacts(s.grid);
    var ps := UnfilledList(s.grid);
    assert |ps| > 0 && i < |ps|;
    assert ps[i] == p by {
      assert ps[i] in ps;
    }
    var g := SetCell(s.grid, p.0, p.1, sol[p.0][p.1]);
    forall r, c | 0 <= r < 9 && 0 <= c < 9 ensures g[r][c] != Unset {
      if (r, c) != p {
        assert (r, c) !in UnfilledSet(s.grid);
      }
    }
  }

  /** Every cell that was filled before the hint keeps its value. */
  lemma {:induction false} HintKeepsFilledCells(s: State, o: Outcome, i: nat)
    requires Valid(s) && HintArgs(s, o, i)
    ensures var t := Hint(s, o, i);
      Valid(t) && forall r, c :: InBounds(r, c) && s.grid[r][c] != Unset ==> t.grid[r][c] == s.grid[r][c]
  {
    UnfilledListFacts(s.grid);
    if o.Solution? && |UnfilledList(s.grid)| > 0 {
      var p := UnfilledList(s.grid)[i];
      assert p in UnfilledList(s.grid);
    }
  }

  /** A failed hint request, or a solution for a board that has nothing left to
      reveal, raises the server flag alone and clears `submitted`. */
  lemma {:induction false} HintCaught(s: State, o: Outcome, i: nat)
    requires Valid(s) && HintArgs(s, o, i)
    requires o.Failure? || (o.Solution? && Full(s.grid))
    ensures var t := Hint(s, o, i);
      t.grid == s.grid && t.prevGrid == s.grid && t.serverError && !t.submitted &&
      !t.nanError && !t.duplicateError && !t.solveError &&
      (Full(s.grid) ==> t.unfilled == {})
  {
    UnfilledListFacts(s.grid);
    FullIffNothingUnset(s.grid);
  }

  /** A hint always records the empty cells of the board it was asked about;
      only a reveal that completes the board empties the set again. */
  lemma {:induction false} HintRecordsUnfilled(s: State, o: Outcome, i: nat)
    requires Valid(s) && HintArgs(s, o, i)
    ensures var t := Hint(s, o, i);
      !o.Solution? ==> t.unfilled == UnfilledSet(s.grid)
    ensures var t := Hint(s, o, i);
      o.Solution? ==> t.unfilled == if Full(t.grid) then {} else UnfilledSet(s.grid)
  {
    UnfilledListFacts(s.grid);
    FullIffNothingUnset(s.grid);
  }

  /** The catch block as written stops at the reference to the undefined
      `error`. After a solve the service found unsolvable, a hint whose
      request fails leaves the no-solution flag raised beside the server flag;
      the completed catch block leaves the server flag alone. */
  lemma HintAsWrittenKeepsStaleFlags()
    ensures var s := Submit(Initial(), NoSolution);
      var t := HintAsWritten(s, Failure, 0);
      !s.submitted && t.solveError && t.serverError && !AtMostOneError(t) &&
      !Hint(s, Failure, 0).solveError && AtMostOneError(Hint(s, Failure, 0))
  {
  }

  // ---------------------------------------------------------------------------
  // Cell values

  /** Every cell holds -1 or a digit. */
  predicate CellsInRange(g: Grid)
    requires IsGrid(g)
  {
    forall i, j :: 0 <= i < 9 && 0 <= j < 9 ==> g[i][j] == Unset || IsDigit(g[i][j])
  }

  /** Edits only ever put -1 or a digit on the board. */
  lemma {:induction false} EditCellsInRange(s: State, r: int, c: int, input: Input)
    requires Valid(s) && CellsInRange(s.grid) && InBounds(r, c)
    ensures CellsInRange(Edit(s, r, c, input).grid)
  {
    var e := Edit(s, r, c, input);
    forall a, b | 0 <= a < 9 && 0 <= b < 9 ensures e.grid[a][b] == Unset || IsDigit(e.grid[a][b]) {
      if a != r || b != c {
        assert e.grid[a][b] == s.grid[a][b];
      }
    }
  }

  /** A solve or hint keeps the board and the snapshot within -1 and the
      digits, provided the service answers with digits. */
  lemma {:induction false} RequestCellsInRange(s: State, o: Outcome, i: nat)
    requires Valid(s) && CellsInRange(s.grid) && CellsInRange(s.prevGrid)
    requires HintArgs(s, o, i) && (o.Solution? ==> CellsInRange(o.solution))
    ensures CellsInRange(Submit(s, o).grid) && CellsInRange(Submit(s, o).prevGrid)
    ensures CellsInRange(Hint(s, o, i).grid) && CellsInRange(Hint(s, o, i).prevGrid)
  {
    var t := Hint(s, o, i);
    if o.Solution? && |UnfilledList(s.grid)| > 0 {
      UnfilledListFacts(s.grid);
      var p := UnfilledList(s.grid)[i];
      assert p in UnfilledList(s.grid);
      forall a, b | 0 <= a < 9 && 0 <= b < 9 ensures t.grid[a][b] == Unset || IsDigit(t.grid[a][b]) {
        if (a, b) != p {
          assert t.grid[a][b] == s.grid[a][b];
        }
      }
    }
  }

  /** Both boards of the state hold only -1 and digits. */
  predicate StateCellsInRange(s: State)
    requires Valid(s)
  {
    CellsInRange(s.grid) && CellsInRange(s.prevGrid)
  }

  /** The cell-value invariant holds across the whole state machine: edit,
      solve, hint, unsolve and reset all keep it, given a service that answers
      in digits (the initial state, two empty boards, has it trivially). */
  lemma {:induction false} CellsInRangeInvariant(s: State, o: Outcome, i: nat, r: int, c: int, input: Input)
    requires Valid(s) && StateCellsInRange(s)
    requires HintArgs(s, o, i) && InBounds(r, c)
    requires o.Solution? ==> CellsInRange(o.solution)
    ensures StateCellsInRange(Edit(s, r, c, input))
    ensures StateCellsInRange(Submit(s, o))
    ensures StateCellsInRange(Hint(s, o, i))
    ensures Valid(Unsolve(s)) && StateCellsInRange(Unsolve(s))
    ensures Valid(Reset(s)) && StateCellsInRange(Reset(s))
  {
    EditCellsInRange(s, r, c, input);
    RequestCellsInRange(s, o, i);
  }

  // ---------------------------------------------------------------------------
  // Error flags

  predicate AtMostOneError(s: State) {
    (if s.nanError then 1 else 0) + (if s.duplicateError then 1 else 0) +
    (if s.solveError then 1 else 0) + (if s.serverError then 1 else 0) <= 1
  }

  /** Edits keep at most one error flag up, except an integer outside 1-9,
      which adds the digit flag to whatever was set. */
  lemma {:induction false} EditAtMostOneError(s: State, r: int, c: int, input: Input)
    requires Valid(s) && AtMostOneError(s) && InBounds(r, c)
    requires input.Num? ==> IsDigit(input.n)
    ensures AtMostOneError(Edit(s, r, c, input))
  {
  }

  /** Solves, hints, unsolves and resets keep at most one error flag up. */
  lemma {:induction false} RequestAtMostOneError(s: State, o: Outcome, i: nat)
    requires Valid(s) && AtMostOneError(s) && HintArgs(s, o, i)
    ensures AtMostOneError(Submit(s, o)) && AtMostOneError(Hint(s, o, i))
    ensures AtMostOneError(Unsolve(s)) && AtMostOneError(Reset(s))
  {
    var t := Snapshot(s);
    assert AtMostOneError(t);
    if o.Solution? && |UnfilledList(s.grid)| > 0 {
      UnfilledListFacts(s.grid);
      var p := UnfilledList(s.grid)[i];
      assert p in UnfilledList(s.grid);
    }
  }

  /** The flags are not mutually exclusive: a duplicate followed by a `0`. */
  lemma OutOfRangeRaisesSecondFlag()
    ensures var s := Initial().(duplicateError := true);
      var t := Edit(s, 0, 0, Num(0));
      t.nanError && t.duplicateError && !AtMostOneError(t)
  {
  }

  /** The row-conflict scenario: 5 at (0,0) of an empty board is stored with
      no error; a second 5 in the same row is refused and the board is kept. */
  lemma {:induction false} RowConflictScenario()
    ensures var s1 := Edit(Initial(), 0, 0, Num(5));
      s1.grid[0][0] == 5 && NoErrors(s1) &&
      var s2 := Edit(s1, 0, 1, Num(5));
      s2.duplicateError && s2.grid == s1.grid
  {
    var g0 := Initial().grid;
    assert !InRow(g0, 0, 5) && !InCol(g0, 0, 5) && !InBlock(g0, 0, 0, 5);
    var s1 := Edit(Initial(), 0, 0, Num(5));
    assert InRow(s1.grid, 0, 5) by { assert s1.grid[0][0] == 5; }
  }
}
