/** The board of the Game of Life: its fixed dimensions, the value view of a
    generation, and the grid operations the user interface calls besides the
    step itself (creating the first generation and editing one cell). */
module LifeGrid {

  /** `numRows` and `numCols`: the board is always 50 by 50. */
  const NumRows: nat := 50
  const NumCols: nat := 50

  /** A generation as a value: a sequence of rows of cell values. The source
      stores plain numbers, so a cell is an `int`; the program only ever puts
      0 (dead) or 1 (alive) in it. */
  type Grid = seq<seq<int>>

  /** `g` has `rows` rows of `cols` cells each. */
  predicate Shaped(g: Grid, rows: nat, cols: nat)
  {
    |g| == rows && forall i :: 0 <= i < rows ==> |g[i]| == cols
  }

  /** `g` has the dimensions of the board. */
  predicate IsBoard(g: Grid)
  {
    Shaped(g, NumRows, NumCols)
  }

  /** A value the program uses for a cell: 0 (dead) or 1 (alive). */
  predicate IsCell(v: int)
  {
    v == 0 || v == 1
  }

  /** Every cell of `g` is 0 or 1. */
  predicate Binary(g: Grid)
  {
    forall i, j :: 0 <= i < |g| && 0 <= j < |g[i]| ==> IsCell(g[i][j])
  }

  /** Every cell of `g` is dead. */
  predicate AllDead(g: Grid)
  {
    forall i, j :: 0 <= i < |g| && 0 <= j < |g[i]| ==> g[i][j] == 0
  }

  /** The generation currently held by the array `a`. */
  ghost function Cells(a: array2<int>): (g: Grid)
    reads a
    ensures Shaped(g, a.Length0, a.Length1)
    ensures forall i, j :: 0 <= i < a.Length0 && 0 <= j < a.Length1 ==> g[i][j] == a[i, j]
  {
    seq(a.Length0, i requires 0 <= i < a.Length0 reads a =>
      seq(a.Length1, j requires 0 <= j < a.Length1 reads a => a[i, j]))
  }

  /** `initGrid(x, y)`: a fresh grid of `x` rows of `y` dead cells, filled
      cell by cell. */
  method InitGrid(x: nat, y: nat) returns (arr: array2<int>)
    ensures fresh(arr)
    ensures arr.Length0 == x && arr.Length1 == y
    ensures forall i, j :: 0 <= i < x && 0 <= j < y ==> arr[i, j] == 0
  {
    arr := new int[x, y];
    for i := 0 to x
      invariant forall i', j :: 0 <= i' < i && 0 <= j < y ==> arr[i', j] == 0
    {
      for j := 0 to y
        invariant forall i', j' :: 0 <= i' < i && 0 <= j' < y ==> arr[i', j'] == 0
        invariant forall j' :: 0 <= j' < j ==> arr[i, j'] == 0
      {
        arr[i, j] := 0;
      }
    }
  }

  /** The deep clone both `simulate` and `updateGrid` start from: a fresh
      array holding the same generation as `grid`. */
  method Clone(grid: array2<int>) returns (copy: array2<int>)
    ensures fresh(copy)
    ensures copy.Length0 == grid.Length0 && copy.Length1 == grid.Length1
    ensures Cells(copy) == Cells(grid)
  {
    copy := new int[grid.Length0, grid.Length1];
    for i := 0 to grid.Length0
      invariant forall i', j :: 0 <= i' < i && 0 <= j < grid.Length1 ==> copy[i', j] == grid[i', j]
    {
      for j := 0 to grid.Length1
        invariant forall i', j' :: 0 <= i' < i && 0 <= j' < grid.Length1 ==> copy[i', j'] == grid[i', j']
        invariant forall j' :: 0 <= j' < j ==> copy[i, j'] == grid[i, j']
      {
        copy[i, j] := grid[i, j];
      }
    }
    assert forall i | 0 <= i < grid.Length0 :: Cells(copy)[i] == Cells(grid)[i];
  }

  /** The generation `g` with the one cell `(x, y)` set to `v`. */
  function SetCell(g: Grid, x: nat, y: nat, v: int): (r: Grid)
    requires x < |g| && y < |g[x]|
    ensures |r| == |g| && forall i :: 0 <= i < |g| ==> |r[i]| == |g[i]|
    ensures r[x][y] == v
    ensures forall i, j :: 0 <= i < |g| && 0 <= j < |g[i]| && (i, j) != (x, y) ==> r[i][j] == g[i][j]
  {
    g[x := g[x][y := v]]
  }

  /** `updateGrid(x, y, val)`: a fresh copy of `grid` in which only the cell
      `(x, y)` holds `val`; `grid` itself is not changed. */
  method UpdateGrid(grid: array2<int>, x: nat, y: nat, val: int) returns (newGrid: array2<int>)
    requires x < grid.Length0 && y < grid.Length1
    ensures fresh(newGrid)
    ensures newGrid.Length0 == grid.Length0 && newGrid.Length1 == grid.Length1
    ensures Cells(newGrid) == SetCell(Cells(grid), x, y, val)
  {
    newGrid := Clone(grid);
    newGrid[x, y] := val;
    assert forall i | 0 <= i < grid.Length0 :: Cells(newGrid)[i] == SetCell(Cells(grid), x, y, val)[i];
  }

  /** The value a click writes into a cell that holds `v`: 0 for a live cell,
      1 for anything else. */
  function Toggled(v: int): (t: int)
    ensures IsCell(t)
    ensures IsCell(v) ==> t == 1 - v
  {
    if v == 1 then 0 else 1
  }

  /** Clicking the same cell twice gives back a generation of 0/1 cells. */
  lemma {:induction false} ToggleTwice(g: Grid, x: nat, y: nat)
    requires Binary(g)
    requires x < |g| && y < |g[x]|
    ensures var once := SetCell(g, x, y, Toggled(g[x][y]));
            SetCell(once, x, y, Toggled(once[x][y])) == g
  {
    var once := SetCell(g, x, y, Toggled(g[x][y]));
    var twice := SetCell(once, x, y, Toggled(once[x][y]));
    assert twice[x][y] == g[x][y];
    forall i | 0 <= i < |g|
      ensures twice[i] == g[i]
    {
      assert |twice[i]| == |g[i]|;
    }
  }

  /** The only edit the user interface makes keeps every cell 0 or 1. */
  lemma ToggleKeepsBinary(g: Grid, x: nat, y: nat)
    requires Binary(g)
    requires x < |g| && y < |g[x]|
    ensures Binary(SetCell(g, x, y, Toggled(g[x][y])))
  {
  }
}
