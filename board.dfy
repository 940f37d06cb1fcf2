/**
 * The board: an 8x8 array of cells updated in place by placements, with the
 * scan helpers that collect enemy directions and flip bracketed runs. Every
 * operation is proved against the pure rules of module Rules.
 */
module Boards {
  import opened ReversiTypes
  import opened Rules
  import opened RulesProofs

  /** The grid an 8x8 array holds. */
  ghost function GridOf(a: array2<Cell>): (g: Grid)
    requires a.Length0 == 8 && a.Length1 == 8
    reads a
    ensures forall x, y | 0 <= x < 8 && 0 <= y < 8 :: g[x][y] == a[x, y]
  {
    seq(8, x requires 0 <= x < 8 reads a => seq(8, y requires 0 <= y < 8 reads a => a[x, y]))
  }

  /** The array holds grid g, square by square. */
  ghost predicate Holds(a: array2<Cell>, g: Grid)
    requires a.Length0 == 8 && a.Length1 == 8
    reads a
  {
    forall x, y | 0 <= x < 8 && 0 <= y < 8 :: a[x, y] == g[x][y]
  }

  lemma HoldsGridOf(a: array2<Cell>, g: Grid)
    requires a.Length0 == 8 && a.Length1 == 8 && Holds(a, g)
    ensures GridOf(a) == g
  {
    forall x | 0 <= x < 8
      ensures GridOf(a)[x] == g[x]
    {
    }
  }

  /** Two arrays hold the same grid exactly when they agree square by square. */
  lemma SameGridIff(a: array2<Cell>, b: array2<Cell>)
    requires a.Length0 == 8 && a.Length1 == 8 && b.Length0 == 8 && b.Length1 == 8
    ensures GridOf(a) == GridOf(b) <==> forall x, y | 0 <= x < 8 && 0 <= y < 8 :: a[x, y] == b[x, y]
  {
    if forall x, y | 0 <= x < 8 && 0 <= y < 8 :: a[x, y] == b[x, y] {
      HoldsGridOf(a, GridOf(b));
    }
  }

  lemma StepIsProduct(x: int, delta: int, i: int)
    requires -1 <= delta <= 1
    ensures Step(x, delta, i) == x + i * delta
  {
  }

  /** The offset visited at row offset i and column offset j. */
  lemma OffsetAt(i: int, j: int)
    requires -1 <= i <= 1 && -1 <= j <= 1
    ensures Offset(3 * (i + 1) + (j + 1)) == Dir(i, j)
  {
  }

  /**
   * The tests get_enemy_positions applies at offset (i, j) from (row, column):
   * the square is on the board, is not the placed square, and holds a piece
   * of the colour opposite to putCell.
   */
  method IsEnemyAt(cells: array2<Cell>, putCell: Cell, row: int, column: int, i: int, j: int) returns (enemy: bool)
    requires cells.Length0 == 8 && cells.Length1 == 8
    ensures enemy == IsEnemyNeighbour(GridOf(cells), putCell, row, column, Dir(i, j))
  {
    if (row + i < 0) || (row + i >= 8) || (column + j < 0) || (column + j >= 8) {
      return false;
    }
    if i == 0 && j == 0 {
      return false;
    }
    var cell := cells[row + i, column + j];
    enemy := cell != Cell.Empty && cell != putCell;
  }

  /**
   * The directions whose adjacent square holds the colour opposite to putCell,
   * visited row offset first, as get_enemy_positions collects them.
   */
  method GetEnemyPositions(cells: array2<Cell>, putCell: Cell, row: int, column: int) returns (enemyPositions: seq<Dir>)
    requires cells.Length0 == 8 && cells.Length1 == 8
    ensures enemyPositions == EnemyDirs(GridOf(cells), putCell, row, column)
  {
    ghost var g := GridOf(cells);
    enemyPositions := [];
    for i := -1 to 2
      invariant enemyPositions == EnemyPrefix(g, putCell, row, column, 3 * (i + 1))
    {
      for j := -1 to 2
        invariant enemyPositions == EnemyPrefix(g, putCell, row, column, 3 * (i + 1) + (j + 1))
      {
        var enemy := IsEnemyAt(cells, putCell, row, column, i, j);
        OffsetAt(i, j);
        if enemy {
          enemyPositions := enemyPositions + [Dir(i, j)];
        }
      }
    }
  }

  /** One step of the outward scan, told by the content of square i along d. */
  lemma BracketAtCell(g: Grid, own: Cell, r: int, c: int, d: Dir, i: int, cell: Cell)
    requires OnBoard(r, c) && IsDir(d) && 1 <= i
    requires OnBoard(RayRow(r, d, i), RayCol(c, d, i)) && g[RayRow(r, d, i)][RayCol(c, d, i)] == cell
    ensures BracketAt(g, own, r, c, d, i) ==
      if cell == Cell.Empty then 0 else if cell == own then i - 1 else BracketAt(g, own, r, c, d, i + 1)
  {
  }

  /** The scan stops with 0 at a square off the board. */
  lemma BracketAtOffBoard(g: Grid, own: Cell, r: int, c: int, d: Dir, i: int)
    requires OnBoard(r, c) && IsDir(d) && 1 <= i && !OnBoard(RayRow(r, d, i), RayCol(c, d, i))
    ensures BracketAt(g, own, r, c, d, i) == 0
  {
  }

  /** Overwrite squares 1..n along position with putCell, nearest first. */
  method FlipRun(cells: array2<Cell>, position: Dir, putCell: Cell, row: int, column: int, n: nat)
    requires cells.Length0 == 8 && cells.Length1 == 8
    requires IsDir(position) && RayOnBoard(row, column, position, n)
    modifies cells
    ensures Holds(cells, FlipRay(old(GridOf(cells)), putCell, row, column, position, n))
  {
    ghost var h := GridOf(cells);
    for j := 1 to n + 1
      invariant Holds(cells, FlipRay(h, putCell, row, column, position, j - 1))
    {
      var x, y := RayRow(row, position, j), RayCol(column, position, j);
      assert OnBoard(x, y);
      cells[x, y] := putCell;
    }
  }

  /**
   * The outward scan of one direction of flip_cells: the distance before the
   * first square of colour putCell, or 0 when the scan leaves the board or
   * meets Empty first.
   */
  method ScanRay(cells: array2<Cell>, ghost h: Grid, position: Dir, putCell: Cell, row: int, column: int) returns (n: nat)
    requires cells.Length0 == 8 && cells.Length1 == 8 && Holds(cells, h)
    requires OnBoard(row, column) && IsDir(position)
    ensures n == RunLength(h, putCell, row, column, position)
  {
    ghost var run := BracketAt(h, putCell, row, column, position, 1);
    var i := 1;
    while true
      invariant 1 <= i <= 8
      invariant BracketAt(h, putCell, row, column, position, i) == run
      decreases 8 - i
    {
      // (x, y) is (row + i * position.dr, column + i * position.dc): see StepIsProduct
      var x, y := RayRow(row, position, i), RayCol(column, position, i);
      if x < 0 || x >= 8 || y < 0 || y >= 8 {
        BracketAtOffBoard(h, putCell, row, column, position, i);
        return 0;
      }
      RayWithinBoard(row, column, position, i);
      var cell := cells[x, y];
      BracketAtCell(h, putCell, row, column, position, i, cell);
      if cell == Cell.Empty {
        return 0;
      }
      if cell == putCell {
        return i - 1;
      }
      i := i + 1;
    }
  }

  /**
   * One direction of flip_cells: scan outward from (row, column) along
   * position; on meeting putCell, overwrite the run before it. Returns the
   * length of that run.
   */
  method FlipDirection(cells: array2<Cell>, position: Dir, putCell: Cell, row: int, column: int) returns (n: nat)
    requires cells.Length0 == 8 && cells.Length1 == 8
    requires OnBoard(row, column) && IsDir(position)
    modifies cells
    ensures n == RunLength(old(GridOf(cells)), putCell, row, column, position)
    ensures Holds(cells, FlipRay(old(GridOf(cells)), putCell, row, column, position, n))
  {
    HoldsGridOf(cells, GridOf(cells));
    n := ScanRay(cells, GridOf(cells), position, putCell, row, column);
    if n == 0 {
      assert Holds(cells, FlipRay(GridOf(cells), putCell, row, column, position, 0));
    } else {
      FlipRun(cells, position, putCell, row, column, n);
    }
  }

  /** Processing one more direction extends FlipAll and FlipCount by that direction's run. */
  lemma FlipAllStep(g: Grid, own: Cell, r: int, c: int, ds: seq<Dir>, k: int)
    requires OnBoard(r, c) && AllDirs(ds) && 0 <= k < |ds|
    ensures var h := FlipAll(g, own, r, c, ds[..k]);
      && FlipAll(g, own, r, c, ds[..k + 1]) == FlipRay(h, own, r, c, ds[k], RunLength(h, own, r, c, ds[k]))
      && FlipCount(g, own, r, c, ds[..k + 1]) == FlipCount(g, own, r, c, ds[..k]) + RunLength(h, own, r, c, ds[k])
  {
    assert ds[..k + 1][..k] == ds[..k];
  }

  /**
   * flip_cells: the directions of enemyPositions in turn, each scanned on the
   * board as the earlier ones left it. Returns the number of squares overwritten.
   */
  method FlipCells(cells: array2<Cell>, enemyPositions: seq<Dir>, putCell: Cell, row: int, column: int)
    returns (flippedCellCount: int)
    requires cells.Length0 == 8 && cells.Length1 == 8
    requires OnBoard(row, column) && AllDirs(enemyPositions)
    modifies cells
    ensures GridOf(cells) == FlipAll(old(GridOf(cells)), putCell, row, column, enemyPositions)
    ensures flippedCellCount == FlipCount(old(GridOf(cells)), putCell, row, column, enemyPositions)
  {
    ghost var g := GridOf(cells);
    flippedCellCount := 0;
    for k := 0 to |enemyPositions|
      invariant GridOf(cells) == FlipAll(g, putCell, row, column, enemyPositions[..k])
      invariant flippedCellCount == FlipCount(g, putCell, row, column, enemyPositions[..k])
    {
      FlipAllStep(g, putCell, row, column, enemyPositions, k);
      var n := FlipDirection(cells, enemyPositions[k], putCell, row, column);
      HoldsGridOf(cells, FlipAll(g, putCell, row, column, enemyPositions[..k + 1]));
      flippedCellCount := flippedCellCount + n;
    }
    assert enemyPositions[..|enemyPositions|] == enemyPositions;
  }

  /** A Reversi board: a fixed 8x8 grid of cells, changed in place by successful placements. */
  class Board {
    const cells: array2<Cell>
    /** The cells of the board as a value. */
    ghost var grid: Grid

    ghost predicate Valid()
      reads this, cells
    {
      cells.Length0 == 8 && cells.Length1 == 8 && Holds(cells, grid)
    }

    /** The default board: all Empty but the four centre squares. */
    constructor ()
      ensures Valid() && fresh(cells)
      ensures grid == InitialGrid()
    {
      var a := new Cell[8, 8]((_, _) => Cell.Empty);
      a[3, 3] := Cell.White;
      a[3, 4] := Cell.Black;
      a[4, 3] := Cell.Black;
      a[4, 4] := Cell.White;
      cells := a;
      grid := InitialGrid();
      new;
      forall x, y | 0 <= x < 8 && 0 <= y < 8
        ensures cells[x, y] == InitialGrid()[x][y]
      {
        InitialPosition(x, y);
      }
    }

    /** A board holding the given 8x8 cells. */
    constructor FromCells(g: Grid)
      ensures Valid() && fresh(cells)
      ensures grid == g
    {
      cells := new Cell[8, 8]((x, y) requires 0 <= x < 8 && 0 <= y < 8 => g[x][y]);
      grid := g;
    }

    /** A copy of another board, sharing no storage with it (the C++ copy of a Board value). */
    constructor Copy(other: Board)
      requires other.Valid()
      ensures Valid() && fresh(cells)
      ensures grid == other.grid
    {
      var a := new Cell[8, 8];
      for x := 0 to 8
        invariant forall x', y | 0 <= x' < x && 0 <= y < 8 :: a[x', y] == other.cells[x', y]
      {
        for y := 0 to 8
          invariant forall x', y' | 0 <= x' < x && 0 <= y' < 8 :: a[x', y'] == other.cells[x', y']
          invariant forall y' | 0 <= y' < y :: a[x, y'] == other.cells[x, y']
        {
          a[x, y] := other.cells[x, y];
        }
      }
      cells := a;
      grid := other.grid;
    }

    /**
     * A board from externally supplied cells: WrongRowCount unless there are
     * 8 rows, then WrongColumnCount unless every row has 8 cells.
     */
    static method Create(cells: seq<seq<Cell>>) returns (r: Fallible<Board>)
      ensures |cells| != 8 ==> r == Failure(WrongRowCount)
      ensures |cells| == 8 && !IsGrid(cells) ==> r == Failure(WrongColumnCount)
      ensures IsGrid(cells) ==> r.Success? && r.value.Valid() && fresh(r.value.cells) && r.value.grid == cells
    {
      if |cells| != 8 {
        return Failure(WrongRowCount);
      }
      for k := 0 to 8
        invariant forall k' | 0 <= k' < k :: |cells[k']| == 8
      {
        if |cells[k]| != 8 {
          return Failure(WrongColumnCount);
        }
      }
      var b := new Board.FromCells(cells);
      return Success(b);
    }

    /** The cell at (row, column); out-of-range coordinates fail, the row being checked first, and are never clamped. */
    function Get(row: int, column: int): (r: Fallible<Cell>)
      requires Valid()
      reads this, cells
      ensures r.Success? <==> OnBoard(row, column)
      ensures (row < 0 || row >= 8) ==> r == Failure(RowOutOfRange)
      ensures 0 <= row < 8 && (column < 0 || column >= 8) ==> r == Failure(ColumnOutOfRange)
      ensures r.Success? ==> r.value == grid[row][column]
    {
      if row < 0 || row >= 8 then Failure(RowOutOfRange)
      else if column < 0 || column >= 8 then Failure(ColumnOutOfRange)
      else Success(cells[row, column])
    }

    /**
     * Place piece at (row, column). Out-of-range, occupied, no adjacent enemy
     * or nothing bracketed: Error and the board is unchanged. Otherwise the
     * bracketed runs are flipped, the piece is placed and the result is Ok.
     */
    method Put(piece: Piece, row: int, column: int) returns (res: Result)
      requires Valid()
      modifies this, cells
      ensures Valid()
      ensures res == PutOutcome(old(grid), piece, row, column)
      ensures grid == PutGrid(old(grid), piece, row, column)
    {
      ghost var g := grid;
      HoldsGridOf(cells, g);
      if row < 0 || row >= 8 {
        return Result.Error;
      }
      if column < 0 || column >= 8 {
        return Result.Error;
      }
      if cells[row, column] != Cell.Empty {
        return Result.Error;
      }
      var putCell := Cell.Empty;
      if piece == Piece.White {
        putCell := Cell.White;
      } else if piece == Piece.Black {
        putCell := Cell.Black;
      }
      var enemyPositions := GetEnemyPositions(cells, putCell, row, column);
      if |enemyPositions| == 0 {
        return Result.Error;
      }
      var flippedCellCount := FlipCells(cells, enemyPositions, putCell, row, column);
      if flippedCellCount == 0 {
        NoFlipNoWrite(g, putCell, row, column, enemyPositions);
        return Result.Error;
      }
      ghost var flipped := GridOf(cells);
      cells[row, column] := putCell;
      grid := Set(flipped, row, column, putCell);
      return Result.Ok;
    }

    /** The number of squares holding piece's colour. */
    method Score(piece: Piece) returns (score: int)
      requires Valid()
      ensures score == Count(grid, PieceCell(piece))
    {
      score := 0;
      var cellToCount := Cell.Empty;
      if piece == Piece.White {
        cellToCount := Cell.White;
      } else if piece == Piece.Black {
        cellToCount := Cell.Black;
      }
      for x := 0 to 8
        invariant score == CountRows(grid, cellToCount, x)
      {
        for y := 0 to 8
          invariant score == CountRows(grid, cellToCount, x) + RowCount(grid[x], cellToCount, y)
        {
          if cells[x, y] == cellToCount {
            score := score + 1;
          }
        }
      }
    }

    /** Board equality: all 64 cells match. */
    function Equals(other: Board): (eq: bool)
      requires Valid() && other.Valid()
      reads this, cells, other, other.cells
      ensures eq <==> grid == other.grid
    {
      HoldsGridOf(cells, grid);
      HoldsGridOf(other.cells, other.grid);
      SameGridIff(cells, other.cells);
      forall x, y | 0 <= x < 8 && 0 <= y < 8 :: cells[x, y] == other.cells[x, y]
    }
  }
}
