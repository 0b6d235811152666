/** `simulate`: one step of the Game of Life, computed cell by cell into a
    fresh copy of the board while reading only the old one. */
module LifeSimulate {
  import opened LifeGrid
  import opened LifeRules

  /** The `operations.forEach` count of `(r, c)`: the values of the
      neighbours that are on the board, added up in table order. */
  method CountLiveNeighbors(grid: array2<int>, r: int, c: int) returns (liveNeighbors: int)
    requires grid.Length0 == NumRows && grid.Length1 == NumCols
    ensures liveNeighbors == LiveNeighbors(Cells(grid), r, c)
  {
    ghost var g := Cells(grid);
    liveNeighbors := 0;
    for k := 0 to |Operations|
      invariant liveNeighbors == SumOver(g, r, c, Operations[..k])
    {
      var ro, co := Operations[k].0, Operations[k].1;
      SumOverPrefix(g, r, c, Operations, k);
      if r + ro < NumRows && c + co < NumCols && r + ro >= 0 && c + co >= 0 {
        var neighbor := grid[r + ro, c + co];
        liveNeighbors := liveNeighbors + neighbor;
      }
    }
    assert Operations[..|Operations|] == Operations;
  }

  /** The next generation of `grid`, in a fresh array of the same shape:
      each cell is the rule applied to its old value and its old neighbours,
      so no cell sees a neighbour already updated in this step, and `grid`
      itself is left as it was. */
  method Simulate(grid: array2<int>) returns (newGrid: array2<int>)
    requires grid.Length0 == NumRows && grid.Length1 == NumCols
    ensures fresh(newGrid)
    ensures newGrid.Length0 == NumRows && newGrid.Length1 == NumCols
    ensures Cells(newGrid) == Step(Cells(grid))
  {
    ghost var g := Cells(grid);
    newGrid := Clone(grid);
    for r := 0 to NumRows
      invariant Cells(grid) == g
      invariant forall i, j :: 0 <= i < r && 0 <= j < NumCols ==> newGrid[i, j] == Step(g)[i][j]
    {
      for c := 0 to NumCols
        invariant Cells(grid) == g
        invariant forall i, j :: 0 <= i < r && 0 <= j < NumCols ==> newGrid[i, j] == Step(g)[i][j]
        invariant forall j :: 0 <= j < c ==> newGrid[r, j] == Step(g)[r][j]
      {
        var cell := grid[r, c];
        var liveNeighbors := CountLiveNeighbors(grid, r, c);
        if cell == 1 && liveNeighbors < 2 {
          cell := 0;
        } else if cell == 1 && (liveNeighbors == 2 || liveNeighbors == 3) {
          cell := 1;
        } else if cell == 1 && liveNeighbors > 3 {
          cell := 0;
        } else if cell == 0 && liveNeighbors == 3 {
          cell := 1;
        }
        newGrid[r, c] := cell;
      }
    }
    assert forall i | 0 <= i < NumRows :: Cells(newGrid)[i] == Step(g)[i];
  }

  /** The first generation the application starts from, `initGrid(numCols,
      numRows)`, is dead everywhere and so is left unchanged by a step. */
  method StartBoard() returns (grid: array2<int>)
    ensures fresh(grid)
    ensures grid.Length0 == NumRows && grid.Length1 == NumCols
    ensures AllDead(Cells(grid)) && Step(Cells(grid)) == Cells(grid)
  {
    grid := InitGrid(NumCols, NumRows);
    StepAllDead(Cells(grid));
  }
}
