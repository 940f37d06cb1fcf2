/**
 * A game of Reversi: the board, whose turn it is, how many moves have been
 * made and whether the game is over. A move is applied only for the side to
 * move; after it the turn passes to the opponent, or back to the mover when
 * the opponent has no legal move, and the game ends when neither side has one.
 */
module Games {
  import opened ReversiTypes
  import opened Rules
  import opened RulesProofs
  import opened Boards

  /**
   * The number of squares where a trial placement of currentTurn on a copy
   * of the board succeeds; zero exactly when currentTurn has no legal move.
   */
  method CalculateValidMoves(board: Board, currentTurn: Piece) returns (validMoveCount: int)
    requires board.Valid()
    ensures validMoveCount == ValidMoveCount(board.grid, currentTurn)
    ensures validMoveCount == 0 <==> !HasLegalMove(board.grid, currentTurn)
  {
    ghost var g := board.grid;
    validMoveCount := 0;
    for i := 0 to 8
      invariant validMoveCount == CountBefore(g, currentTurn, i)
    {
      for j := 0 to 8
        invariant validMoveCount == CountBefore(g, currentTurn, i) + CountInRow(g, currentTurn, i, j)
      {
        if board.Get(i, j) == Success(Cell.Empty) {
          var copyBoard := new Board.Copy(board);
          var res := copyBoard.Put(currentTurn, i, j);
          if res == Result.Ok {
            validMoveCount := validMoveCount + 1;
          }
        }
      }
    }
    ValidMoveCountZero(g, currentTurn);
  }

  /** A game: the board it owns, the side to move, the number of moves made and the status. */
  class Game {
    const board: Board
    var currentTurn: Piece
    var moveCount: int
    var status: GameStatus
    /** The number of Empty squares when the game was created. */
    ghost const emptyAtStart: int

    /** Every move made so far filled exactly one Empty square. */
    ghost predicate Valid()
      reads this, board, board.cells
    {
      && board.Valid()
      && 0 <= moveCount
      && moveCount + Count(board.grid, Cell.Empty) == emptyAtStart
    }

    /** A game on the default board, Black to move, no moves made; Black has a legal move. */
    constructor ()
      ensures Valid() && fresh(board) && fresh(board.cells)
      ensures board.grid == InitialGrid() && emptyAtStart == 60
      ensures currentTurn == Piece.Black && moveCount == 0 && status == GameStatus.Continue
      ensures HasLegalMove(board.grid, currentTurn)
    {
      board := new Board();
      currentTurn := Piece.Black;
      moveCount := 0;
      status := GameStatus.Continue;
      InitialScores();
      OpeningHasMove();
      emptyAtStart := 60;
    }

    /** A game that takes its own copy of the given board, Black to move, no moves made. */
    constructor WithBoard(b: Board)
      requires b.Valid()
      ensures Valid() && fresh(board) && fresh(board.cells)
      ensures board.grid == b.grid
      ensures currentTurn == Piece.Black && moveCount == 0 && status == GameStatus.Continue
    {
      board := new Board.Copy(b);
      currentTurn := Piece.Black;
      moveCount := 0;
      status := GameStatus.Continue;
      emptyAtStart := Count(b.grid, Cell.Empty);
    }

    /**
     * Play piece at (row, column). Error, and nothing changes, when it is not
     * piece's turn or the placement is illegal. Otherwise the placement is
     * applied and counted, and the turn passes to the opponent (Continue),
     * or stays with piece when the opponent cannot move (ContinueWithSkip),
     * or the game ends when neither side can move (GameOver).
     */
    method NextMove(piece: Piece, row: int, column: int) returns (moveStatus: MoveStatus)
      requires Valid()
      modifies this, board, board.cells
      ensures Valid()
      ensures moveStatus == MoveStatus.Error <==>
        old(currentTurn) != piece || !IsLegal(old(board.grid), piece, row, column)
      ensures moveStatus == MoveStatus.Error ==>
        && board.grid == old(board.grid)
        && currentTurn == old(currentTurn) && moveCount == old(moveCount) && status == old(status)
      ensures moveStatus != MoveStatus.Error ==>
        && board.grid == PutGrid(old(board.grid), piece, row, column)
        && moveCount == old(moveCount) + 1
      ensures moveStatus == MoveStatus.Continue <==>
        moveStatus != MoveStatus.Error && HasLegalMove(board.grid, Opponent(piece))
      ensures moveStatus == MoveStatus.Continue ==>
        currentTurn == Opponent(piece) && status == GameStatus.Continue
      ensures moveStatus == MoveStatus.ContinueWithSkip <==>
        && moveStatus != MoveStatus.Error
        && !HasLegalMove(board.grid, Opponent(piece))
        && HasLegalMove(board.grid, piece)
      ensures moveStatus == MoveStatus.ContinueWithSkip ==>
        currentTurn == piece && status == GameStatus.Continue
      ensures moveStatus == MoveStatus.GameOver <==>
        && moveStatus != MoveStatus.Error
        && !HasLegalMove(board.grid, Opponent(piece))
        && !HasLegalMove(board.grid, piece)
      ensures moveStatus == MoveStatus.GameOver ==>
        currentTurn == piece && status == GameStatus.GameOver
    {
      ghost var g := board.grid;
      if currentTurn != piece {
        return MoveStatus.Error;
      }
      var res := board.Put(piece, row, column);
      if res == Result.Error {
        PutErrorUnchanged(g, piece, row, column);
        return MoveStatus.Error;
      }
      ghost var after := board.grid;
      assert after == PutGrid(g, piece, row, column) && IsLegal(g, piece, row, column);
      PutScore(g, piece, row, column);
      assert moveCount + 1 + Count(after, Cell.Empty) == emptyAtStart;
      if currentTurn == Piece.Black {
        currentTurn := Piece.White;
      } else {
        currentTurn := Piece.Black;
      }
      moveCount := moveCount + 1;
      status := GameStatus.Continue;
      moveStatus := MoveStatus.Continue;
      assert currentTurn == Opponent(piece);
      var opponentMoves := CalculateValidMoves(board, currentTurn);
      assert board.grid == after;
      if opponentMoves == 0 {
        if currentTurn == Piece.Black {
          currentTurn := Piece.White;
        } else {
          currentTurn := Piece.Black;
        }
        status := GameStatus.Continue;
        moveStatus := MoveStatus.ContinueWithSkip;
        assert currentTurn == piece;
        var ownMoves := CalculateValidMoves(board, currentTurn);
        if ownMoves == 0 {
          status := GameStatus.GameOver;
          moveStatus := MoveStatus.GameOver;
        }
      }
      assert board.grid == after;
    }
  }
}
