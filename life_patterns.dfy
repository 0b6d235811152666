/** Known patterns on the board: the dead board, the 2x2 block (a still life)
    and the blinker (an oscillator of period 2). */
module LifePatterns {
  import opened LifeGrid
  import opened LifeRules

  /** Whether `(i, j)` is a live cell on the board of `live`, as a count. */
  function Alive(live: set<(int, int)>, i: int, j: int): int
  {
    if InBounds(i, j) && (i, j) in live then 1 else 0
  }

  /** The board on which exactly the cells in `live` are alive. */
  function Pattern(live: set<(int, int)>): (g: Grid)
    ensures IsBoard(g) && Binary(g)
    ensures forall i, j :: 0 <= i < NumRows && 0 <= j < NumCols ==> g[i][j] == Alive(live, i, j)
  {
    seq(NumRows, i requires 0 <= i < NumRows =>
      seq(NumCols, j requires 0 <= j < NumCols => if (i, j) in live then 1 else 0))
  }

  /** A neighbour of a pattern contributes 1 exactly when it is on the board
      and alive. */
  lemma PatternNeighbourValue(live: set<(int, int)>, r: int, c: int, ro: int, co: int)
    ensures NeighbourValue(Pattern(live), r, c, ro, co)
         == if InBounds(r + ro, c + co) && (r + ro, c + co) in live then 1 else 0
  {
  }

  /** The live-neighbour count of a pattern cell, offset by offset. */
  lemma PatternNeighbors(live: set<(int, int)>, r: int, c: int)
    ensures LiveNeighbors(Pattern(live), r, c)
         == Alive(live, r - 1, c - 1) + Alive(live, r - 1, c) + Alive(live, r - 1, c + 1)
          + Alive(live, r, c - 1) + Alive(live, r, c + 1)
          + Alive(live, r + 1, c - 1) + Alive(live, r + 1, c) + Alive(live, r + 1, c + 1)
  {
    var g := Pattern(live);
    LiveNeighborsExpanded(g, r, c);
    PatternNeighbourValue(live, r, c, -1, -1);
    PatternNeighbourValue(live, r, c, -1, 0);
    PatternNeighbourValue(live, r, c, -1, 1);
    PatternNeighbourValue(live, r, c, 0, -1);
    PatternNeighbourValue(live, r, c, 0, 1);
    PatternNeighbourValue(live, r, c, 1, -1);
    PatternNeighbourValue(live, r, c, 1, 0);
    PatternNeighbourValue(live, r, c, 1, 1);
  }

  /** A cell of a pattern after one step, as the rule applied to the cell and
      its count. */
  lemma StepPatternCell(live: set<(int, int)>, i: int, j: int)
    requires 0 <= i < NumRows && 0 <= j < NumCols
    ensures Step(Pattern(live))[i][j] == Rule(Alive(live, i, j), LiveNeighbors(Pattern(live), i, j))
  {
  }

  /** Two patterns whose cells agree one by one are the same board. */
  lemma PatternsEqual(g: Grid, live: set<(int, int)>)
    requires IsBoard(g)
    requires forall i, j :: 0 <= i < NumRows && 0 <= j < NumCols ==> g[i][j] == Pattern(live)[i][j]
    ensures g == Pattern(live)
  {
    forall i | 0 <= i < NumRows
      ensures g[i] == Pattern(live)[i]
    {
    }
  }

  /** The 2x2 block with top-left corner `(r, c)`. */
  function Block(r: int, c: int): set<(int, int)>
  {
    {(r, c), (r, c + 1), (r + 1, c), (r + 1, c + 1)}
  }

  /** Which cells of the block pattern are alive. */
  lemma BlockAlive(r: int, c: int, x: int, y: int)
    requires 0 <= r < NumRows - 1 && 0 <= c < NumCols - 1
    ensures Alive(Block(r, c), x, y) == if r <= x <= r + 1 && c <= y <= c + 1 then 1 else 0
  {
  }

  /** One cell of the block pattern after a step. */
  lemma BlockCell(r: int, c: int, i: int, j: int)
    requires 0 <= r < NumRows - 1 && 0 <= c < NumCols - 1
    requires 0 <= i < NumRows && 0 <= j < NumCols
    ensures Step(Pattern(Block(r, c)))[i][j] == Pattern(Block(r, c))[i][j]
  {
    var live := Block(r, c);
    StepPatternCell(live, i, j);
    PatternNeighbors(live, i, j);
    BlockAlive(r, c, i - 1, j - 1);
    BlockAlive(r, c, i - 1, j);
    BlockAlive(r, c, i - 1, j + 1);
    BlockAlive(r, c, i, j - 1);
    BlockAlive(r, c, i, j);
    BlockAlive(r, c, i, j + 1);
    BlockAlive(r, c, i + 1, j - 1);
    BlockAlive(r, c, i + 1, j);
    BlockAlive(r, c, i + 1, j + 1);
    assert Pattern(live)[i][j] == Alive(live, i, j);
  }

  /** The 2x2 block is a still life wherever it lies on the board, edges and
      corners included. */
  lemma {:induction false} BlockIsStill(r: int, c: int)
    requires 0 <= r < NumRows - 1 && 0 <= c < NumCols - 1
    ensures Step(Pattern(Block(r, c))) == Pattern(Block(r, c))
  {
    forall i, j | 0 <= i < NumRows && 0 <= j < NumCols
      ensures Step(Pattern(Block(r, c)))[i][j] == Pattern(Block(r, c))[i][j]
    {
      BlockCell(r, c, i, j);
    }
    PatternsEqual(Step(Pattern(Block(r, c))), Block(r, c));
  }

  /** Three live cells in a row centred on `(r, c)`. */
  function Horizontal(r: int, c: int): set<(int, int)>
  {
    {(r, c - 1), (r, c), (r, c + 1)}
  }

  /** Three live cells in a column centred on `(r, c)`. */
  function Vertical(r: int, c: int): set<(int, int)>
  {
    {(r - 1, c), (r, c), (r + 1, c)}
  }

  /** The horizontal blinker as arithmetic on coordinates. */
  function OnRow(r: int, c: int, x: int, y: int): int
  {
    if x == r && c - 1 <= y <= c + 1 then 1 else 0
  }

  /** The vertical blinker as arithmetic on coordinates. */
  function OnColumn(r: int, c: int, x: int, y: int): int
  {
    if y == c && r - 1 <= x <= r + 1 then 1 else 0
  }

  /** Which cells of the horizontal blinker are alive. */
  lemma HorizontalAlive(r: int, c: int, x: int, y: int)
    requires 1 <= r < NumRows - 1 && 1 <= c < NumCols - 1
    ensures Alive(Horizontal(r, c), x, y) == OnRow(r, c, x, y)
  {
  }

  /** Which cells of the vertical blinker are alive. */
  lemma VerticalAlive(r: int, c: int, x: int, y: int)
    requires 1 <= r < NumRows - 1 && 1 <= c < NumCols - 1
    ensures Alive(Vertical(r, c), x, y) == OnColumn(r, c, x, y)
  {
  }

  /** The rule turns a row of three into a column of three, cell by cell. */
  lemma RowToColumn(r: int, c: int, i: int, j: int)
    ensures Rule(OnRow(r, c, i, j),
                 OnRow(r, c, i - 1, j - 1) + OnRow(r, c, i - 1, j) + OnRow(r, c, i - 1, j + 1)
               + OnRow(r, c, i, j - 1) + OnRow(r, c, i, j + 1)
               + OnRow(r, c, i + 1, j - 1) + OnRow(r, c, i + 1, j) + OnRow(r, c, i + 1, j + 1))
         == OnColumn(r, c, i, j)
  {
  }

  /** The rule turns a column of three into a row of three, cell by cell. */
  lemma ColumnToRow(r: int, c: int, i: int, j: int)
    ensures Rule(OnColumn(r, c, i, j),
                 OnColumn(r, c, i - 1, j - 1) + OnColumn(r, c, i - 1, j) + OnColumn(r, c, i - 1, j + 1)
               + OnColumn(r, c, i, j - 1) + OnColumn(r, c, i, j + 1)
               + OnColumn(r, c, i + 1, j - 1) + OnColumn(r, c, i + 1, j) + OnColumn(r, c, i + 1, j + 1))
         == OnRow(r, c, i, j)
  {
  }

  /** One cell of the horizontal blinker after a step. */
  lemma HorizontalCell(r: int, c: int, i: int, j: int)
    requires 1 <= r < NumRows - 1 && 1 <= c < NumCols - 1
    requires 0 <= i < NumRows && 0 <= j < NumCols
    ensures Step(Pattern(Horizontal(r, c)))[i][j] == Pattern(Vertical(r, c))[i][j]
  {
    StepPatternCell(Horizontal(r, c), i, j);
    PatternNeighbors(Horizontal(r, c), i, j);
    HorizontalAlive(r, c, i - 1, j - 1);
    HorizontalAlive(r, c, i - 1, j);
    HorizontalAlive(r, c, i - 1, j + 1);
    HorizontalAlive(r, c, i, j - 1);
    HorizontalAlive(r, c, i, j);
    HorizontalAlive(r, c, i, j + 1);
    HorizontalAlive(r, c, i + 1, j - 1);
    HorizontalAlive(r, c, i + 1, j);
    HorizontalAlive(r, c, i + 1, j + 1);
    VerticalAlive(r, c, i, j);
    RowToColumn(r, c, i, j);
    assert Pattern(Vertical(r, c))[i][j] == Alive(Vertical(r, c), i, j);
  }

  /** One cell of the vertical blinker after a step. */
  lemma VerticalCell(r: int, c: int, i: int, j: int)
    requires 1 <= r < NumRows - 1 && 1 <= c < NumCols - 1
    requires 0 <= i < NumRows && 0 <= j < NumCols
    ensures Step(Pattern(Vertical(r, c)))[i][j] == Pattern(Horizontal(r, c))[i][j]
  {
    StepPatternCell(Vertical(r, c), i, j);
    PatternNeighbors(Vertical(r, c), i, j);
    VerticalAlive(r, c, i - 1, j - 1);
    VerticalAlive(r, c, i - 1, j);
    VerticalAlive(r, c, i - 1, j + 1);
    VerticalAlive(r, c, i, j - 1);
    VerticalAlive(r, c, i, j);
    VerticalAlive(r, c, i, j + 1);
    VerticalAlive(r, c, i + 1, j - 1);
    VerticalAlive(r, c, i + 1, j);
    VerticalAlive(r, c, i + 1, j + 1);
    HorizontalAlive(r, c, i, j);
    ColumnToRow(r, c, i, j);
    assert Pattern(Horizontal(r, c))[i][j] == Alive(Horizontal(r, c), i, j);
  }

  /** A horizontal line of three turns into the vertical line through its
      centre. */
  lemma {:induction false} HorizontalBecomesVertical(r: int, c: int)
    requires 1 <= r < NumRows - 1 && 1 <= c < NumCols - 1
    ensures Step(Pattern(Horizontal(r, c))) == Pattern(Vertical(r, c))
  {
    forall i, j | 0 <= i < NumRows && 0 <= j < NumCols
      ensures Step(Pattern(Horizontal(r, c)))[i][j] == Pattern(Vertical(r, c))[i][j]
    {
      HorizontalCell(r, c, i, j);
    }
    PatternsEqual(Step(Pattern(Horizontal(r, c))), Vertical(r, c));
  }

  /** A vertical line of three turns into the horizontal line through its
      centre. */
  lemma {:induction false} VerticalBecomesHorizontal(r: int, c: int)
    requires 1 <= r < NumRows - 1 && 1 <= c < NumCols - 1
    ensures Step(Pattern(Vertical(r, c))) == Pattern(Horizontal(r, c))
  {
    forall i, j | 0 <= i < NumRows && 0 <= j < NumCols
      ensures Step(Pattern(Vertical(r, c)))[i][j] == Pattern(Horizontal(r, c))[i][j]
    {
      VerticalCell(r, c, i, j);
    }
    PatternsEqual(Step(Pattern(Vertical(r, c))), Horizontal(r, c));
  }

  /** The blinker has period 2: two steps bring the horizontal line back, and
      one step does not. */
  lemma {:induction false} BlinkerOscillates(r: int, c: int)
    requires 1 <= r < NumRows - 1 && 1 <= c < NumCols - 1
    ensures Step(Step(Pattern(Horizontal(r, c)))) == Pattern(Horizontal(r, c))
    ensures Step(Pattern(Horizontal(r, c))) != Pattern(Horizontal(r, c))
  {
    HorizontalBecomesVertical(r, c);
    VerticalBecomesHorizontal(r, c);
    assert Pattern(Vertical(r, c))[r - 1][c] == 1 != Pattern(Horizontal(r, c))[r - 1][c];
  }
}
