/** The 9x9 board of the puzzle: cells hold -1 (empty) or, once entered, a digit.
    Placement rules (row, column, 3x3 block), fullness, and the row-major list of
    empty positions that the solve and hint handlers collect. */
module Board {

  /** The sentinel the board uses for an empty cell. */
  const Unset: int := -1

  type Grid = seq<seq<int>>

  /** A (row, column) pair; the source keys these as the string "row-col". */
  type Pos = (int, int)

  /** The board is always exactly 9 rows of 9 cells. */
  predicate IsGrid(g: Grid) {
    |g| == 9 && forall i :: 0 <= i < 9 ==> |g[i]| == 9
  }

  predicate InBounds(r: int, c: int) {
    0 <= r < 9 && 0 <= c < 9
  }

  predicate IsDigit(v: int) {
    1 <= v <= 9
  }

  /** The board with every cell empty. */
  function EmptyGrid(): (g: Grid)
    ensures IsGrid(g)
    ensures forall i, j :: InBounds(i, j) ==> g[i][j] == Unset
  {
    seq(9, _ => seq(9, _ => Unset))
  }

  /** A copy of `g` in which only cell (r, c) is overwritten with `v`. */
  function SetCell(g: Grid, r: int, c: int, v: int): (h: Grid)
    requires IsGrid(g) && InBounds(r, c)
    ensures IsGrid(h)
    ensures h[r][c] == v
    ensures forall i, j :: InBounds(i, j) && (i != r || j != c) ==> h[i][j] == g[i][j]
  {
    g[r := g[r][c := v]]
  }

  /** No cell of the board is empty. */
  predicate Full(g: Grid)
    requires IsGrid(g)
  {
    forall i, j :: 0 <= i < 9 && 0 <= j < 9 ==> g[i][j] != Unset
  }

  // ---------------------------------------------------------------------------
  // Placement rules, read against the board as it stands (the target cell included)

  predicate InRow(g: Grid, r: int, d: int)
    requires IsGrid(g) && 0 <= r < 9
  {
    exists j :: 0 <= j < 9 && g[r][j] == d
  }

  predicate InCol(g: Grid, c: int, d: int)
    requires IsGrid(g) && 0 <= c < 9
  {
    exists i :: 0 <= i < 9 && g[i][c] == d
  }

  /** First row (or column) of the 3x3 block holding row (or column) k. */
  function BlockStart(k: int): (s: int)
    requires 0 <= k < 9
    ensures s % 3 == 0 && 0 <= s <= 6
    ensures s <= k < s + 3
  {
    (k / 3) * 3
  }

  predicate InBlock(g: Grid, r: int, c: int, d: int)
    requires IsGrid(g) && InBounds(r, c)
  {
    exists i, j :: BlockStart(r) <= i < BlockStart(r) + 3 && BlockStart(c) <= j < BlockStart(c) + 3 && g[i][j] == d
  }

  /** Placing `d` at (r, c) repeats a digit of its row, column or block. */
  predicate Duplicate(g: Grid, r: int, c: int, d: int)
    requires IsGrid(g) && InBounds(r, c)
  {
    InRow(g, r, d) || InCol(g, c, d) || InBlock(g, r, c, d)
  }

  /** Two distinct cells that share a row, a column or a 3x3 block. */
  predicate Peers(i1: int, j1: int, i2: int, j2: int) {
    (i1 != i2 || j1 != j2) && (i1 == i2 || j1 == j2 || (i1 / 3 == i2 / 3 && j1 / 3 == j2 / 3))
  }

  /** No digit occurs twice in a row, a column or a block. */
  predicate Consistent(g: Grid)
    requires IsGrid(g)
  {
    forall i1, j1, i2, j2 ::
      0 <= i1 < 9 && 0 <= j1 < 9 && 0 <= i2 < 9 && 0 <= j2 < 9 &&
      Peers(i1, j1, i2, j2) && IsDigit(g[i1][j1])
      ==> g[i1][j1] != g[i2][j2]
  }

  // ---------------------------------------------------------------------------
  // Empty positions, in the row-major order the source's nested loops visit them

  /** The empty cells of row i among its first j columns, left to right. */
  function RowUnfilled(g: Grid, i: int, j: int): (ps: seq<Pos>)
    requires IsGrid(g) && 0 <= i < 9 && 0 <= j <= 9
    ensures forall p :: p in ps ==> p.0 == i && 0 <= p.1 < j && g[i][p.1] == Unset
  {
    if j == 0 then []
    else RowUnfilled(g, i, j - 1) + (if g[i][j - 1] == Unset then [(i, j - 1)] else [])
  }

  /** The empty cells of the first i rows, row by row. */
  function RowsUnfilled(g: Grid, i: int): (ps: seq<Pos>)
    requires IsGrid(g) && 0 <= i <= 9
    ensures forall p :: p in ps ==> 0 <= p.0 < i && 0 <= p.1 < 9 && g[p.0][p.1] == Unset
  {
    if i == 0 then [] else RowsUnfilled(g, i - 1) + RowUnfilled(g, i - 1, 9)
  }

  /** Every empty position of the board, in row-major order. */
  function UnfilledList(g: Grid): seq<Pos>
    requires IsGrid(g)
  {
    RowsUnfilled(g, 9)
  }

  /** The set of empty positions of the board. */
  function UnfilledSet(g: Grid): set<Pos>
    requires IsGrid(g)
  {
    set i, j | 0 <= i < 9 && 0 <= j < 9 && g[i][j] == Unset :: (i, j)
  }

  predicate Before(p: Pos, q: Pos) {
    p.0 < q.0 || (p.0 == q.0 && p.1 < q.1)
  }

  predicate RowMajor(ps: seq<Pos>) {
    forall a, b :: 0 <= a < b < |ps| ==> Before(ps[a], ps[b])
  }

  lemma {:induction false} ConcatRowMajor(xs: seq<Pos>, ys: seq<Pos>)
    requires RowMajor(xs) && RowMajor(ys)
    requires forall p, q :: p in xs && q in ys ==> Before(p, q)
    ensures RowMajor(xs + ys)
  {
    var zs := xs + ys;
    forall a, b | 0 <= a < b < |zs| ensures Before(zs[a], zs[b]) {
      if b < |xs| {
        assert zs[a] == xs[a] && zs[b] == xs[b];
      } else if a >= |xs| {
        assert zs[a] == ys[a - |xs|] && zs[b] == ys[b - |xs|];
      } else {
        assert zs[a] in xs && zs[b] in ys;
      }
    }
  }

  lemma {:induction false} RowUnfilledExact(g: Grid, i: int, j: int)
    requires IsGrid(g) && 0 <= i < 9 && 0 <= j <= 9
    ensures forall c :: 0 <= c < j && g[i][c] == Unset ==> (i, c) in RowUnfilled(g, i, j)
    ensures RowMajor(RowUnfilled(g, i, j))
  {
    if j > 0 {
      RowUnfilledExact(g, i, j - 1);
      var last: seq<Pos> := if g[i][j - 1] == Unset then [(i, j - 1)] else [];
      ConcatRowMajor(RowUnfilled(g, i, j - 1), last);
    }
  }

  lemma {:induction false} RowsUnfilledExact(g: Grid, i: int)
    requires IsGrid(g) && 0 <= i <= 9
    ensures forall r, c :: 0 <= r < i && 0 <= c < 9 && g[r][c] == Unset ==> (r, c) in RowsUnfilled(g, i)
    ensures RowMajor(RowsUnfilled(g, i))
  {
    if i > 0 {
      RowsUnfilledExact(g, i - 1);
      RowUnfilledExact(g, i - 1, 9);
      ConcatRowMajor(RowsUnfilled(g, i - 1), RowUnfilled(g, i - 1, 9));
    }
  }

  /** The collected list holds exactly the empty cells, each once, in row-major
      order; it is empty exactly when the board is full. */
  lemma UnfilledListFacts(g: Grid)
    requires IsGrid(g)
    ensures forall p :: p in UnfilledList(g) <==> p in UnfilledSet(g)
    ensures RowMajor(UnfilledList(g))
    ensures |UnfilledList(g)| == 0 <==> Full(g)
  {
    RowsUnfilledExact(g, 9);
    if !Full(g) {
      var r, c :| 0 <= r < 9 && 0 <= c < 9 && g[r][c] == Unset;
      assert (r, c) in RowsUnfilled(g, 9);
    }
    if |UnfilledList(g)| > 0 {
      var p := UnfilledList(g)[0];
      assert p in RowsUnfilled(g, 9);
      assert !Full(g) by { assert g[p.0][p.1] == Unset; }
    }
  }

  /** Entering a digit that a cell already holds always counts as a duplicate,
      because every check scans the target cell too. */
  lemma SameDigitIsDuplicate(g: Grid, r: int, c: int)
    requires IsGrid(g) && InBounds(r, c)
    ensures InRow(g, r, g[r][c]) && InCol(g, c, g[r][c]) && InBlock(g, r, c, g[r][c])
  {
    var br, bc := BlockStart(r), BlockStart(c);
    assert br <= r < br + 3 && bc <= c < bc + 3;
  }

  /** A block-mate (i, j) of (r, c) lies in the block scanned by InBlock. */
  lemma BlockMate(r: int, c: int, i: int, j: int)
    requires InBounds(r, c) && InBounds(i, j) && i / 3 == r / 3 && j / 3 == c / 3
    ensures BlockStart(r) <= i < BlockStart(r) + 3 && BlockStart(c) <= j < BlockStart(c) + 3
  {
  }

  /** Writing a digit that passed the three checks keeps a consistent board consistent. */
  lemma {:induction false} PlaceKeepsConsistent(g: Grid, r: int, c: int, d: int)
    requires IsGrid(g) && InBounds(r, c) && Consistent(g)
    requires !Duplicate(g, r, c, d)
    ensures Consistent(SetCell(g, r, c, d))
  {
    var h := SetCell(g, r, c, d);
    forall i1, j1, i2, j2 |
      InBounds(i1, j1) && InBounds(i2, j2) && Peers(i1, j1, i2, j2) && IsDigit(h[i1][j1])
      ensures h[i1][j1] != h[i2][j2]
    {
      if i1 == r && j1 == c {
        NotPeerValue(g, r, c, d, i2, j2);
      } else if i2 == r && j2 == c {
        NotPeerValue(g, r, c, d, i1, j1);
      } else {
        assert h[i1][j1] == g[i1][j1] && h[i2][j2] == g[i2][j2];
      }
    }
  }

  lemma NotPeerValue(g: Grid, r: int, c: int, d: int, i: int, j: int)
    requires IsGrid(g) && InBounds(r, c) && InBounds(i, j)
    requires !Duplicate(g, r, c, d)
    requires Peers(r, c, i, j)
    ensures g[i][j] != d
  {
    if i == r {
      assert !(0 <= j < 9 && g[r][j] == d);
    } else if j == c {
      assert !(0 <= i < 9 && g[i][c] == d);
    } else {
      BlockMate(r, c, i, j);
      var br, bc := BlockStart(r), BlockStart(c);
      assert !(br <= i < br + 3 && bc <= j < bc + 3 && g[i][j] == d);
    }
  }

  /** Emptying a cell keeps a consistent board consistent. */
  lemma ClearKeepsConsistent(g: Grid, r: int, c: int)
    requires IsGrid(g) && InBounds(r, c) && Consistent(g)
    ensures Consistent(SetCell(g, r, c, Unset))
  {
    var h := SetCell(g, r, c, Unset);
    forall i1, j1, i2, j2 |
      InBounds(i1, j1) && InBounds(i2, j2) && Peers(i1, j1, i2, j2) && IsDigit(h[i1][j1])
      ensures h[i1][j1] != h[i2][j2]
    {
      if (i1 != r || j1 != c) && (i2 != r || j2 != c) {
        assert h[i1][j1] == g[i1][j1] && h[i2][j2] == g[i2][j2];
      }
    }
  }

  // ---------------------------------------------------------------------------
  // The two board helpers the source writes as loops

  /** `createEmptyGrid`: nine rows of nine empty cells, built cell by cell. */
  method CreateEmptyGrid() returns (g: Grid)
    ensures g == EmptyGrid()
  {
    g := [];
    var i := 0;
    while i < 9
      invariant 0 <= i <= 9
      invariant |g| == i
      invariant forall k :: 0 <= k < i ==> g[k] == EmptyGrid()[k]
    {
      var row: seq<int> := [];
      var j := 0;
      while j < 9
        invariant 0 <= j <= 9
        invariant |row| == j
        invariant forall k :: 0 <= k < j ==> row[k] == Unset
      {
        row := row + [Unset];
        j := j + 1;
      }
      g := g + [row];
      i := i + 1;
    }
  }

  /** `isFull`: returns false at the first row that still holds -1. */
  method IsFull(g: Grid) returns (full: bool)
    requires IsGrid(g)
    ensures full <==> Full(g)
  {
    var row := 0;
    while row < 9
      invariant 0 <= row <= 9
      invariant forall i, j :: 0 <= i < row && 0 <= j < 9 ==> g[i][j] != Unset
    {
      if Unset in g[row] {
        var j :| 0 <= j < |g[row]| && g[row][j] == Unset;
        assert InBounds(row, j);
        return false;
      }
      row := row + 1;
    }
    return true;
  }
}
