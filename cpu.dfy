/**
 * The computer player: a greedy strategy that tries every square in
 * row-major order on a copy of the board and keeps the first square whose
 * placement leaves it the most pieces.
 */
module Cpu {
  import opened ReversiTypes
  import opened Rules
  import opened RulesProofs
  import opened Boards
  import opened Games

  /** No square before (i, j) in row-major order takes a legal placement of p. */
  ghost predicate NoLegalBefore(g: Grid, p: Piece, i: int, j: int) {
    forall x, y :: OnBoard(x, y) && RowMajorBefore(x, y, i, j) ==> !IsLegal(g, p, x, y)
  }

  /**
   * m is a legal placement of p before (i, j) whose score no earlier-scanned
   * legal square beats, and that every legal square before it scores less than.
   */
  ghost predicate GreedyBefore(g: Grid, p: Piece, m: Move, i: int, j: int) {
    && m.piece == p
    && OnBoard(m.row, m.column)
    && RowMajorBefore(m.row, m.column, i, j)
    && IsLegal(g, p, m.row, m.column)
    && (forall x, y :: OnBoard(x, y) && RowMajorBefore(x, y, i, j) && IsLegal(g, p, x, y) ==>
          ScoreAfter(g, p, x, y) <= ScoreAfter(g, p, m.row, m.column))
    && (forall x, y :: OnBoard(x, y) && RowMajorBefore(x, y, m.row, m.column) && IsLegal(g, p, x, y) ==>
          ScoreAfter(g, p, x, y) < ScoreAfter(g, p, m.row, m.column))
  }

  /** The move the greedy strategy picks over the whole board: the first legal square of highest score. */
  ghost predicate GreedyChoice(g: Grid, p: Piece, m: Move) {
    GreedyBefore(g, p, m, 8, 0)
  }

  /** The state of get_next_move's scan after the squares before (i, j). */
  ghost predicate Scanned(g: Grid, p: Piece, m: Move, best: int, i: int, j: int) {
    || (m == DefaultMove && best == 0 && NoLegalBefore(g, p, i, j))
    || (GreedyBefore(g, p, m, i, j) && best == ScoreAfter(g, p, m.row, m.column))
  }

  /** Scanning square (i, j): a legal square that beats the best so far becomes the choice. */
  lemma ScanStep(g: Grid, p: Piece, m: Move, best: int, i: int, j: int)
    requires 0 <= i < 8 && 0 <= j < 8 && Scanned(g, p, m, best, i, j)
    ensures !IsLegal(g, p, i, j) || ScoreAfter(g, p, i, j) <= best ==> Scanned(g, p, m, best, i, j + 1)
    ensures IsLegal(g, p, i, j) && ScoreAfter(g, p, i, j) > best ==>
      Scanned(g, p, Move(p, i, j), ScoreAfter(g, p, i, j), i, j + 1)
  {
    if IsLegal(g, p, i, j) {
      LegalScoreAtLeastTwo(g, p, i, j);
    }
    forall x, y | RowMajorBefore(x, y, i, j + 1)
      ensures RowMajorBefore(x, y, i, j) || (x, y) == (i, j)
    {
    }
  }

  /** Finishing row i is starting row i + 1. */
  lemma ScanRowEnd(g: Grid, p: Piece, m: Move, best: int, i: int)
    requires Scanned(g, p, m, best, i, 8)
    ensures Scanned(g, p, m, best, i + 1, 0)
  {
    assert forall x, y :: OnBoard(x, y) ==> (RowMajorBefore(x, y, i, 8) <==> RowMajorBefore(x, y, i + 1, 0));
  }

  /** After the whole board: the sentinel exactly when p has no legal move, the greedy choice otherwise. */
  lemma ScanDone(g: Grid, p: Piece, m: Move, best: int)
    requires Scanned(g, p, m, best, 8, 0)
    ensures m == DefaultMove <==> !HasLegalMove(g, p)
    ensures m != DefaultMove ==> GreedyChoice(g, p, m)
  {
    if m == DefaultMove {
      assert !GreedyBefore(g, p, m, 8, 0);
    }
  }

  /** At most one move is the greedy choice: the strategy is deterministic. */
  lemma {:induction false} GreedyChoiceUnique(g: Grid, p: Piece, m1: Move, m2: Move)
    requires GreedyChoice(g, p, m1) && GreedyChoice(g, p, m2)
    ensures m1 == m2
  {
    var s1, s2 := ScoreAfter(g, p, m1.row, m1.column), ScoreAfter(g, p, m2.row, m2.column);
    assert s1 <= s2 && s2 <= s1;
    assert !RowMajorBefore(m1.row, m1.column, m2.row, m2.column);
    assert !RowMajorBefore(m2.row, m2.column, m1.row, m1.column);
  }

  /** A computer player for one side. */
  class CpuPlayer {
    const piece: Piece

    constructor (piece: Piece)
      ensures this.piece == piece
    {
      this.piece := piece;
    }

    /**
     * The greedy move for this player's side on game's board: the first
     * square, row by row, whose trial placement gives the highest score;
     * DefaultMove when no placement is legal. The game is not changed.
     */
    method GetNextMove(game: Game) returns (nextMove: Move)
      requires game.Valid()
      ensures nextMove == DefaultMove <==> !HasLegalMove(game.board.grid, piece)
      ensures nextMove != DefaultMove ==> GreedyChoice(game.board.grid, piece, nextMove)
    {
      ghost var g := game.board.grid;
      var highestScore := 0;
      nextMove := DefaultMove;
      for i := 0 to 8
        invariant Scanned(g, piece, nextMove, highestScore, i, 0)
      {
        for j := 0 to 8
          invariant Scanned(g, piece, nextMove, highestScore, i, j)
        {
          ScanStep(g, piece, nextMove, highestScore, i, j);
          if IsLegal(g, piece, i, j) {
            LegalIsEmpty(g, piece, i, j);
          }
          if game.board.Get(i, j) != Success(Cell.Empty) {
            continue;
          }
          var copyBoard := new Board.Copy(game.board);
          var res := copyBoard.Put(piece, i, j);
          if res != Result.Ok {
            continue;
          }
          var score := copyBoard.Score(piece);
          if score > highestScore {
            highestScore := score;
            nextMove := Move(piece, i, j);
          }
        }
        ScanRowEnd(g, piece, nextMove, highestScore, i);
      }
      ScanDone(g, piece, nextMove, highestScore);
    }
  }

  /**
   * One turn of a game between two computer players: the player whose turn
   * it is picks its greedy move and plays it. When the side to move has a
   * legal move, the move is accepted and counted, and unless the game is now
   * over the side to move again has a legal move.
   */
  method PlayTurn(game: Game, black: CpuPlayer, white: CpuPlayer) returns (result: MoveStatus)
    requires game.Valid() && game.status == GameStatus.Continue
    requires HasLegalMove(game.board.grid, game.currentTurn)
    requires black.piece == Piece.Black && white.piece == Piece.White
    modifies game, game.board, game.board.cells
    ensures game.Valid() && game.moveCount == old(game.moveCount) + 1
    ensures result != MoveStatus.Error
    ensures result == MoveStatus.GameOver <==> game.status == GameStatus.GameOver
    ensures game.status == GameStatus.Continue ==> HasLegalMove(game.board.grid, game.currentTurn)
  {
    ghost var g := game.board.grid;
    var move: Move;
    if game.currentTurn == Piece.Black {
      move := black.GetNextMove(game);
    } else {
      move := white.GetNextMove(game);
    }
    assert move.piece == game.currentTurn && IsLegal(g, move.piece, move.row, move.column);
    result := game.NextMove(move.piece, move.row, move.column);
  }

  /**
   * Two computer players play on from a position where the side to move has
   * a legal move, until the game is over; results lists what each move
   * returned: never Error, and GameOver only for the last.
   */
  method PlayToEnd(game: Game, black: CpuPlayer, white: CpuPlayer) returns (results: seq<MoveStatus>)
    requires game.Valid() && game.status == GameStatus.Continue
    requires HasLegalMove(game.board.grid, game.currentTurn)
    requires black.piece == Piece.Black && white.piece == Piece.White
    modifies game, game.board, game.board.cells
    ensures game.Valid() && game.status == GameStatus.GameOver
    ensures game.moveCount == old(game.moveCount) + |results|
    ensures 1 <= |results|
    ensures forall k | 0 <= k < |results| :: results[k] != MoveStatus.Error
    ensures forall k | 0 <= k < |results| - 1 :: results[k] != MoveStatus.GameOver
    ensures results[|results| - 1] == MoveStatus.GameOver
  {
    results := [];
    while game.status == GameStatus.Continue
      invariant game.Valid() && game.moveCount == old(game.moveCount) + |results|
      invariant game.status == GameStatus.Continue ==> HasLegalMove(game.board.grid, game.currentTurn)
      invariant forall k | 0 <= k < |results| :: results[k] != MoveStatus.Error
      invariant game.status == GameStatus.Continue ==>
        forall k | 0 <= k < |results| :: results[k] != MoveStatus.GameOver
      invariant game.status == GameStatus.GameOver ==>
        && 1 <= |results| && results[|results| - 1] == MoveStatus.GameOver
        && forall k | 0 <= k < |results| - 1 :: results[k] != MoveStatus.GameOver
      decreases game.emptyAtStart - game.moveCount
    {
      var result := PlayTurn(game, black, white);
      results := results + [result];
    }
  }

  /**
   * Two computer players, Black and White, play a new game until it is over:
   * every move they choose is accepted, the game ends in GameOver, and it
   * takes at most 60 moves.
   */
  method PlayCpuGame() returns (game: Game, results: seq<MoveStatus>)
    ensures game.Valid() && game.status == GameStatus.GameOver
    ensures 1 <= |results| == game.moveCount <= 60
    ensures forall k | 0 <= k < |results| :: results[k] != MoveStatus.Error
    ensures forall k | 0 <= k < |results| - 1 :: results[k] != MoveStatus.GameOver
    ensures results[|results| - 1] == MoveStatus.GameOver
  {
    game := new Game();
    var player1 := new CpuPlayer(Piece.Black);
    var player2 := new CpuPlayer(Piece.White);
    results := PlayToEnd(game, player1, player2);
  }
}
