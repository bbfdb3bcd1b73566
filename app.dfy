/** The App component as an object: its state hooks become fields, and each
    event handler becomes a method that overwrites them. Every handler's new
    state is the corresponding transition of module Session applied to the old
    one; what those transitions guarantee is proved there. */
module App {
  import opened Board
  import Session

  class SudokuApp {
    // The board is replaced by an updated copy on every change, never edited
    // through an alias, so the two boards are values that the handlers reassign.
    var grid: Grid
    var prevGrid: Grid
    var unfilled: set<Pos>
    var submitted: bool
    var NaNError: bool
    var duplicateError: bool
    var solveError: bool
    var serverError: bool

    ghost predicate Valid()
      reads this
    {
      IsGrid(grid) && IsGrid(prevGrid)
    }

    /** The fields read as one value of Session.State. */
    function State(): (s: Session.State)
      reads this
      ensures Valid() <==> Session.Valid(s)
    {
      Session.State(grid, prevGrid, unfilled, submitted, NaNError, duplicateError, solveError, serverError)
    }

    /** The hooks' initial values: two empty boards, an empty set, every flag down. */
    constructor ()
      ensures Valid() && State() == Session.Initial()
    {
      var g := CreateEmptyGrid();
      var pg := CreateEmptyGrid();
      grid, prevGrid := g, pg;
      unfilled := {};
      submitted := false;
      NaNError, duplicateError, solveError, serverError := false, false, false, false;
    }

    // -------------------------------------------------------------------------
    // Duplicate checks against the current board

    /** `checkRow`: is `val` anywhere in row `row`? */
    function CheckRow(val: int, row: int): (dup: bool)
      reads this
      requires Valid() && 0 <= row < 9
      ensures dup <==> InRow(grid, row, val)
    {
      val in grid[row]
    }

    /** `checkCol`: scans column `col` top to bottom, stopping at the first `val`. */
    method CheckCol(val: int, col: int) returns (dup: bool)
      requires Valid() && 0 <= col < 9
      ensures dup <==> InCol(grid, col, val)
    {
      var row := 0;
      while row < 9
        invariant 0 <= row <= 9
        invariant forall i :: 0 <= i < row ==> grid[i][col] != val
      {
        if grid[row][col] == val {
          return true;
        }
        row := row + 1;
      }
      return false;
    }

    /** `checkBlock`: scans the 3x3 block holding (row, col), stopping at the first `val`. */
    method CheckBlock(val: int, row: int, col: int) returns (dup: bool)
      requires Valid() && InBounds(row, col)
      ensures dup <==> InBlock(grid, row, col, val)
    {
      var startRow := BlockStart(row);
      var startCol := BlockStart(col);
      var r := startRow;
      while r < startRow + 3
        invariant startRow <= r <= startRow + 3
        invariant forall i, j :: startRow <= i < r && startCol <= j < startCol + 3 ==> grid[i][j] != val
      {
        var c := startCol;
        while c < startCol + 3
          invariant startCol <= c <= startCol + 3
          invariant forall j :: startCol <= j < c ==> grid[r][j] != val
        {
          if grid[r][c] == val {
            return true;
          }
          c := c + 1;
        }
        r := r + 1;
      }
      return false;
    }

    /** The loop both request handlers run: every empty cell, row by row. */
    method UnfilledPositions() returns (positions: seq<Pos>)
      requires Valid()
      ensures positions == UnfilledList(grid)
    {
      positions := [];
      var i := 0;
      while i < 9
        invariant 0 <= i <= 9
        invariant positions == RowsUnfilled(grid, i)
      {
        var j := 0;
        while j < 9
          invariant 0 <= j <= 9
          invariant positions == RowsUnfilled(grid, i) + RowUnfilled(grid, i, j)
        {
          if grid[i][j] == Unset {
            positions := positions + [(i, j)];
          }
          j := j + 1;
        }
        i := i + 1;
      }
    }

    /** Records the snapshot and the set of empty cells before a request, and
        hands back the cells in the order they were collected. */
    method TakeSnapshot() returns (positions: seq<Pos>)
      requires Valid()
      modifies this`prevGrid, this`unfilled
      ensures Valid() && State() == Session.Snapshot(old(State()))
      ensures positions == UnfilledList(grid)
    {
      prevGrid := grid;
      positions := UnfilledPositions();
      UnfilledListFacts(grid);
      unfilled := set p | p in positions;
    }

    // -------------------------------------------------------------------------
    // Handlers

    /** `updateGrid`: the change handler of cell (rowIndex, colIndex). */
    method UpdateGrid(input: Session.Input, rowIndex: int, colIndex: int)
      requires Valid() && InBounds(rowIndex, colIndex)
      modifies this
      ensures Valid() && State() == Session.Edit(old(State()), rowIndex, colIndex, input)
    {
      submitted := false;
      match input
      case Empty =>
        grid := SetCell(grid, rowIndex, colIndex, Unset);
        duplicateError, NaNError, solveError, serverError := false, false, false, false;
      case NonNumeric =>
        NaNError := true;
        duplicateError, solveError, serverError := false, false, false;
      case Num(numVal) =>
        if numVal < 1 || numVal > 9 {
          NaNError := true;
          return;
        }
        NaNError, duplicateError, solveError, serverError := false, false, false, false;
        var rowDuplicate := CheckRow(numVal, rowIndex);
        var colDuplicate := CheckCol(numVal, colIndex);
        var blockDuplicate := CheckBlock(numVal, rowIndex, colIndex);
        if rowDuplicate || colDuplicate || blockDuplicate {
          duplicateError := true;
          return;
        }
        var newGrid := SetCell(grid, rowIndex, colIndex, numVal);
        grid := newGrid;
        var full := IsFull(newGrid);
        if full {
          submitted := true;
          unfilled := {};
        }
    }

    /** `handleSubmit`, with the service's settlement given as `outcome`. */
    method HandleSubmit(outcome: Session.Outcome)
      requires Valid() && (outcome.Solution? ==> IsGrid(outcome.solution))
      modifies this
      ensures Valid() && State() == Session.Submit(old(State()), outcome)
    {
      if duplicateError || NaNError {
        return;
      }
      var _ := TakeSnapshot();
      match outcome
      case Solution(solution) =>
        grid := solution;
        submitted := true;
        duplicateError, NaNError, solveError, serverError := false, false, false, false;
      case NoSolution =>
        solveError := true;
        duplicateError, NaNError, submitted, serverError := false, false, false, false;
      case Failure =>
        serverError := true;
        solveError, duplicateError, NaNError, submitted := false, false, false, false;
    }

    /** `handleHint`, with the settlement given as `outcome` and the random
        pick as `randomIndex`; its catch block clears the other flags. */
    method HandleHint(outcome: Session.Outcome, randomIndex: nat)
      requires Valid() && Session.HintArgs(State(), outcome, randomIndex)
      modifies this
      ensures Valid() && State() == Session.Hint(old(State()), outcome, randomIndex)
    {
      var positions := TakeSnapshot();
      match outcome
      case Solution(solution) =>
        if |positions| == 0 {
          // nothing to pick: reading the missing element throws
          serverError := true;
          solveError, duplicateError, NaNError, submitted := false, false, false, false;
          return;
        }
        var p := positions[randomIndex];
        assert p in UnfilledList(old(grid));
        var newGrid := SetCell(grid, p.0, p.1, solution[p.0][p.1]);
        grid := newGrid;
        var full := IsFull(newGrid);
        if full {
          submitted := true;
          unfilled := {};
        }
      case NoSolution =>
        solveError := true;
        duplicateError, NaNError, submitted, serverError := false, false, false, false;
      case Failure =>
        serverError := true;
        solveError, duplicateError, NaNError, submitted := false, false, false, false;
    }

    /** `handleUnsolve`. */
    method HandleUnsolve()
      requires Valid()
      modifies this
      ensures Valid() && State() == Session.Unsolve(old(State()))
    {
      grid := prevGrid;
      unfilled := {};
      submitted := false;
      duplicateError, NaNError, serverError, solveError := false, false, false, false;
    }

    /** `handleReset`. */
    method HandleReset()
      requires Valid()
      modifies this
      ensures Valid() && State() == Session.Reset(old(State()))
    {
      var empty := CreateEmptyGrid();
      grid := empty;
      unfilled := {};
      submitted := false;
      duplicateError, NaNError, serverError, solveError := false, false, false, false;
    }

    /** `shouldHighlightCell`: a cell the solver filled, shown while submitted. */
    function ShouldHighlightCell(rowIndex: int, colIndex: int): (highlighted: bool)
      reads this
      ensures highlighted == Session.ShouldHighlight(State(), rowIndex, colIndex)
    {
      submitted && (rowIndex, colIndex) in unfilled
    }
  }
}
