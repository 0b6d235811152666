/** The step of the Game of Life as values: the neighbour offsets, the count of
    live neighbours, the birth/survival rule and the next generation. */
module LifeRules {
  import opened LifeGrid

  /** `operations`: the eight offsets from a cell to its neighbours, in the
      order the count visits them. */
  const Operations: seq<(int, int)> :=
    [(-1, -1), (-1, 0), (-1, 1), (0, -1), (0, 1), (1, -1), (1, 0), (1, 1)]

  /** The offset table is exactly the eight non-zero steps of at most one row
      and one column, each listed once. */
  lemma OperationsAreTheEightNeighbours()
    ensures |Operations| == 8
    ensures forall k, l :: 0 <= k < l < |Operations| ==> Operations[k] != Operations[l]
    ensures forall ro, co :: (ro, co) in Operations <==> -1 <= ro <= 1 && -1 <= co <= 1 && (ro, co) != (0, 0)
  {
  }

  /** `(r, c)` lies on the board. */
  predicate InBounds(r: int, c: int)
  {
    r < NumRows && c < NumCols && r >= 0 && c >= 0
  }

  /** The live-neighbour sum of `(r, c)` over the offsets `offs`: the values
      of the cells they reach, where an offset that leaves the board is
      skipped. */
  function SumOver(g: Grid, r: int, c: int, offs: seq<(int, int)>): int
    requires IsBoard(g)
  {
    if offs == [] then 0
    else
      var ro, co := offs[|offs| - 1].0, offs[|offs| - 1].1;
      var rest := SumOver(g, r, c, offs[..|offs| - 1]);
      if InBounds(r + ro, c + co) then rest + g[r + ro][c + co] else rest
  }

  /** How many of the offsets `offs` land on the board from `(r, c)`. */
  function CountInBounds(r: int, c: int, offs: seq<(int, int)>): (n: nat)
    ensures n <= |offs|
  {
    if offs == [] then 0
    else
      var ro, co := offs[|offs| - 1].0, offs[|offs| - 1].1;
      CountInBounds(r, c, offs[..|offs| - 1]) + if InBounds(r + ro, c + co) then 1 else 0
  }

  /** The live-neighbour count of `(r, c)` in `g`. */
  function LiveNeighbors(g: Grid, r: int, c: int): int
    requires IsBoard(g)
  {
    SumOver(g, r, c, Operations)
  }

  /** How many neighbours `(r, c)` has on the board. */
  function NeighbourSlots(r: int, c: int): nat
  {
    CountInBounds(r, c, Operations)
  }

  /** The contribution of the neighbour at offset `(ro, co)`: its value if it
      is on the board, nothing otherwise. */
  function NeighbourValue(g: Grid, r: int, c: int, ro: int, co: int): int
    requires IsBoard(g)
  {
    if InBounds(r + ro, c + co) then g[r + ro][c + co] else 0
  }

  /** Taking one more offset into the sum adds exactly that neighbour. */
  lemma SumOverPrefix(g: Grid, r: int, c: int, offs: seq<(int, int)>, k: nat)
    requires IsBoard(g)
    requires k < |offs|
    ensures SumOver(g, r, c, offs[..k + 1])
         == SumOver(g, r, c, offs[..k]) + NeighbourValue(g, r, c, offs[k].0, offs[k].1)
  {
    assert offs[..k + 1][..k] == offs[..k];
  }

  /** The live-neighbour count is the sum of the eight neighbour
      contributions, each off-board neighbour contributing nothing. */
  lemma LiveNeighborsExpanded(g: Grid, r: int, c: int)
    requires IsBoard(g)
    ensures LiveNeighbors(g, r, c)
         == NeighbourValue(g, r, c, -1, -1) + NeighbourValue(g, r, c, -1, 0)
          + NeighbourValue(g, r, c, -1, 1) + NeighbourValue(g, r, c, 0, -1)
          + NeighbourValue(g, r, c, 0, 1) + NeighbourValue(g, r, c, 1, -1)
          + NeighbourValue(g, r, c, 1, 0) + NeighbourValue(g, r, c, 1, 1)
  {
    var ops := Operations;
    assert ops[..0] == [];
    SumOverPrefix(g, r, c, ops, 0);
    SumOverPrefix(g, r, c, ops, 1);
    SumOverPrefix(g, r, c, ops, 2);
    SumOverPrefix(g, r, c, ops, 3);
    SumOverPrefix(g, r, c, ops, 4);
    SumOverPrefix(g, r, c, ops, 5);
    SumOverPrefix(g, r, c, ops, 6);
    SumOverPrefix(g, r, c, ops, 7);
    assert ops[..8] == ops;
  }

  /** Taking one more offset into the count adds one exactly when that
      offset lands on the board. */
  lemma CountInBoundsPrefix(r: int, c: int, offs: seq<(int, int)>, k: nat)
    requires k < |offs|
    ensures CountInBounds(r, c, offs[..k + 1])
         == CountInBounds(r, c, offs[..k]) + if InBounds(r + offs[k].0, c + offs[k].1) then 1 else 0
  {
    assert offs[..k + 1][..k] == offs[..k];
  }

  /** The number of neighbours on the board, offset by offset. */
  lemma NeighbourSlotsExpanded(r: int, c: int)
    ensures NeighbourSlots(r, c)
         == (if InBounds(r - 1, c - 1) then 1 else 0) + (if InBounds(r - 1, c) then 1 else 0)
          + (if InBounds(r - 1, c + 1) then 1 else 0) + (if InBounds(r, c - 1) then 1 else 0)
          + (if InBounds(r, c + 1) then 1 else 0) + (if InBounds(r + 1, c - 1) then 1 else 0)
          + (if InBounds(r + 1, c) then 1 else 0) + (if InBounds(r + 1, c + 1) then 1 else 0)
  {
    var ops := Operations;
    assert ops[..0] == [];
    CountInBoundsPrefix(r, c, ops, 0);
    CountInBoundsPrefix(r, c, ops, 1);
    CountInBoundsPrefix(r, c, ops, 2);
    CountInBoundsPrefix(r, c, ops, 3);
    CountInBoundsPrefix(r, c, ops, 4);
    CountInBoundsPrefix(r, c, ops, 5);
    CountInBoundsPrefix(r, c, ops, 6);
    CountInBoundsPrefix(r, c, ops, 7);
    assert ops[..8] == ops;
  }

  /** Over 0/1 cells the sum is between 0 and the number of offsets that land
      on the board. */
  lemma {:induction false} SumOverRange(g: Grid, r: int, c: int, offs: seq<(int, int)>)
    requires IsBoard(g) && Binary(g)
    ensures 0 <= SumOver(g, r, c, offs) <= CountInBounds(r, c, offs)
  {
    if offs != [] {
      SumOverRange(g, r, c, offs[..|offs| - 1]);
    }
  }

  /** Over 0/1 cells a cell has at most as many live neighbours as it has
      neighbours on the board, and so at most 8. */
  lemma LiveNeighborsRange(g: Grid, r: int, c: int)
    requires IsBoard(g) && Binary(g)
    ensures 0 <= LiveNeighbors(g, r, c) <= NeighbourSlots(r, c) <= 8
  {
    SumOverRange(g, r, c, Operations);
  }

  /** A corner cell sees exactly its three neighbours on the board, so its
      count over 0/1 cells is at most 3. */
  lemma CornerNeighbors(g: Grid)
    requires IsBoard(g)
    ensures LiveNeighbors(g, 0, 0) == g[0][1] + g[1][0] + g[1][1]
    ensures NeighbourSlots(0, 0) == 3
    ensures Binary(g) ==> LiveNeighbors(g, 0, 0) <= 3
  {
    LiveNeighborsExpanded(g, 0, 0);
    NeighbourSlotsExpanded(0, 0);
  }

  /** A cell away from every edge has all eight neighbours on the board. */
  lemma InteriorSlots(r: int, c: int)
    requires 1 <= r < NumRows - 1 && 1 <= c < NumCols - 1
    ensures NeighbourSlots(r, c) == 8
  {
    NeighbourSlotsExpanded(r, c);
  }

  /** A board of dead cells gives every cell a count of 0. */
  lemma {:induction false} SumOverAllDead(g: Grid, r: int, c: int, offs: seq<(int, int)>)
    requires IsBoard(g) && AllDead(g)
    ensures SumOver(g, r, c, offs) == 0
  {
    if offs != [] {
      SumOverAllDead(g, r, c, offs[..|offs| - 1]);
    }
  }

  /** The birth/survival rule in its usual form (born with 3, survives with
      2 or 3); a value other than 0 or 1 is left as it is. */
  function Rule(cell: int, n: int): (next: int)
    ensures IsCell(cell) ==> IsCell(next)
    ensures !IsCell(cell) ==> next == cell
  {
    if cell == 1 then (if n == 2 || n == 3 then 1 else 0)
    else if cell == 0 then (if n == 3 then 1 else 0)
    else cell
  }

  /** The rule case by case: underpopulation, survival, overpopulation,
      birth, and every other case unchanged. */
  lemma RuleCases(cell: int, n: int)
    ensures cell == 1 && n < 2 ==> Rule(cell, n) == 0
    ensures cell == 1 && (n == 2 || n == 3) ==> Rule(cell, n) == 1
    ensures cell == 1 && n > 3 ==> Rule(cell, n) == 0
    ensures cell == 0 && n == 3 ==> Rule(cell, n) == 1
    ensures cell == 0 && n != 3 ==> Rule(cell, n) == 0
  {
  }

  /** The next generation: every cell is the rule applied to its own old value
      and the count of its live neighbours in the old generation. */
  function Step(g: Grid): (next: Grid)
    requires IsBoard(g)
    ensures IsBoard(next)
  {
    seq(NumRows, i requires 0 <= i < NumRows =>
      seq(NumCols, j requires 0 <= j < NumCols => Rule(g[i][j], LiveNeighbors(g, i, j))))
  }

  /** A generation of 0/1 cells steps to a generation of 0/1 cells. */
  lemma StepKeepsBinary(g: Grid)
    requires IsBoard(g) && Binary(g)
    ensures Binary(Step(g))
  {
  }

  /** A dead board stays dead: no cell can reach three live neighbours. */
  lemma StepAllDead(g: Grid)
    requires IsBoard(g) && AllDead(g)
    ensures Step(g) == g
  {
    forall i, j | 0 <= i < NumRows && 0 <= j < NumCols
      ensures Step(g)[i][j] == 0
    {
      SumOverAllDead(g, i, j, Operations);
    }
    forall i | 0 <= i < NumRows
      ensures Step(g)[i] == g[i]
    {
    }
  }

  /** A dead cell becomes alive exactly when it has three live neighbours; a
      live cell stays alive exactly when it has two or three. */
  lemma StepBirthAndSurvival(g: Grid, i: nat, j: nat)
    requires IsBoard(g) && i < NumRows && j < NumCols
    ensures g[i][j] == 0 ==> (Step(g)[i][j] == 1 <==> LiveNeighbors(g, i, j) == 3)
    ensures g[i][j] == 1 ==> (Step(g)[i][j] == 1 <==> 2 <= LiveNeighbors(g, i, j) <= 3)
  {
  }
}
