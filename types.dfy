/** The value types of the Reversi engine: squares, sides, result codes, moves and the 8x8 grid. */
module ReversiTypes {

  /** Content of one square of the board. */
  datatype Cell = Empty | Black | White

  /** One of the two competing sides; unlike Cell it has no Empty value. */
  datatype Piece = Black | White

  /** Outcome of a placement on the board. */
  datatype Result = Error | Ok

  /** Whether further moves are possible for either side. */
  datatype GameStatus = Continue | GameOver

  /** Outcome of one move attempt on a game; ContinueWithSkip signals a forced pass. */
  datatype MoveStatus = Error | Continue | ContinueWithSkip | GameOver

  /** A proposed placement: side, row and column. */
  datatype Move = Move(piece: Piece, row: int, column: int)

  /** The default-constructed move, used as the "no move" sentinel. */
  const DefaultMove: Move := Move(Piece.Black, -1, -1)

  /** The conditions the engine reports by throwing: out-of-range reads and wrongly shaped boards. */
  datatype BoardError = RowOutOfRange | ColumnOutOfRange | WrongRowCount | WrongColumnCount

  /** A value or the error that prevented computing it. */
  datatype Fallible<T> = Success(value: T) | Failure(error: BoardError)

  predicate OnBoard(row: int, column: int) {
    0 <= row < 8 && 0 <= column < 8
  }

  /** Exactly 8 rows of exactly 8 cells each. */
  predicate IsGrid(cells: seq<seq<Cell>>) {
    |cells| == 8 && forall r | 0 <= r < 8 :: |cells[r]| == 8
  }

  /** The cell contents of a board, row-major. */
  type Grid = cells: seq<seq<Cell>> | IsGrid(cells) witness EmptyGrid()

  function EmptyGrid(): seq<seq<Cell>> {
    seq(8, _ => seq(8, _ => Cell.Empty))
  }

  /** The grid with one square replaced. */
  function Set(g: Grid, row: int, column: int, v: Cell): Grid
    requires OnBoard(row, column)
  {
    g[row := g[row][column := v]]
  }

  /** The colour a side places. */
  function PieceCell(p: Piece): (c: Cell)
    ensures c != Cell.Empty
  {
    if p == Piece.White then Cell.White else Cell.Black
  }

  /** The other side. */
  function Opponent(p: Piece): (q: Piece)
    ensures q != p && PieceCell(q) != PieceCell(p)
  {
    if p == Piece.Black then Piece.White else Piece.Black
  }

  /** A square that holds a piece of the colour opposite to `own`. */
  predicate IsEnemy(cell: Cell, own: Cell) {
    cell != Cell.Empty && cell != own
  }
}
