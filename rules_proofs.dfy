/**
 * What the rule functions of module Rules mean: the scan of a ray finds exactly
 * the bracketed run, a placement flips exactly the captured squares and nothing
 * else, scores move by the number of flipped squares, and counting legal moves
 * agrees with the existence of one.
 */
module RulesProofs {
  import opened ReversiTypes
  import opened Rules

  // ---------------------------------------------------------------------------
  // Geometry

  /** Square j along d is aligned with the origin, in direction d, at distance j. */
  lemma RayPoint(r: int, c: int, d: Dir, j: int)
    requires IsDir(d) && 1 <= j
    ensures var x, y := RayRow(r, d, j), RayCol(c, d, j);
      (x, y) != (r, c) && Aligned(r, c, x, y) && DirTo(r, c, x, y) == d && Dist(r, c, x, y) == j
  {
  }

  /** Every square aligned with the origin is reached along DirTo after Dist steps. */
  lemma AlignedPoint(r: int, c: int, x: int, y: int)
    requires (x, y) != (r, c) && Aligned(r, c, x, y)
    ensures IsDir(DirTo(r, c, x, y)) && 1 <= Dist(r, c, x, y)
    ensures RayRow(r, DirTo(r, c, x, y), Dist(r, c, x, y)) == x
    ensures RayCol(c, DirTo(r, c, x, y), Dist(r, c, x, y)) == y
  {
  }

  // ---------------------------------------------------------------------------
  // The scan of one ray

  /**
   * Scanning from distance i, past a run of enemies 1..i-1, stops at distance
   * k + 1 exactly when the ray is bracketed with k enemies.
   */
  lemma {:induction false} BracketAtIff(g: Grid, own: Cell, r: int, c: int, d: Dir, i: int, k: int)
    requires own != Cell.Empty && OnBoard(r, c) && IsDir(d) && 1 <= k && 1 <= i <= k + 1
    requires RayOnBoard(r, c, d, i - 1)
    requires forall j :: 1 <= j < i ==> IsEnemy(g[RayRow(r, d, j)][RayCol(c, d, j)], own)
    ensures BracketAt(g, own, r, c, d, i) == k <==> Bracketed(g, own, r, c, d, k)
    decreases 8 - i
  {
    var x, y := RayRow(r, d, i), RayCol(c, d, i);
    if !OnBoard(x, y) {
      assert !RayOnBoard(r, c, d, k + 1);
    } else if g[x][y] == Cell.Empty {
      assert !Bracketed(g, own, r, c, d, k) by {
        if i <= k {
          assert !IsEnemy(g[RayRow(r, d, i)][RayCol(c, d, i)], own);
        } else {
          assert i == k + 1;
          assert g[RayRow(r, d, k + 1)][RayCol(c, d, k + 1)] != own;
        }
      }
    } else if g[x][y] == own {
      if i <= k {
        assert !IsEnemy(g[RayRow(r, d, i)][RayCol(c, d, i)], own);
      } else {
        assert RayOnBoard(r, c, d, k + 1);
      }
    } else if i <= k {
      BracketAtIff(g, own, r, c, d, i + 1, k);
    } else {
      BracketAtSpec(g, own, r, c, d, i + 1);
      assert g[RayRow(r, d, k + 1)][RayCol(c, d, k + 1)] != own;
    }
  }

  /** The run a placement flips along d is k exactly when d is bracketed after k enemies. */
  lemma RunLengthIsBracket(g: Grid, own: Cell, r: int, c: int, d: Dir, k: int)
    requires own != Cell.Empty && OnBoard(r, c) && IsDir(d) && 1 <= k
    ensures RunLength(g, own, r, c, d) == k <==> Bracketed(g, own, r, c, d, k)
  {
    BracketAtIff(g, own, r, c, d, 1, k);
  }

  /** The scan from distance i reads nothing but squares i, i+1, ... of the ray. */
  lemma {:induction false} BracketAtFrame(g: Grid, h: Grid, own: Cell, r: int, c: int, d: Dir, i: int)
    requires OnBoard(r, c) && IsDir(d) && 1 <= i
    requires AgreeOnRay(g, h, r, c, d, i)
    ensures BracketAt(g, own, r, c, d, i) == BracketAt(h, own, r, c, d, i)
    decreases 8 - i
  {
    var x, y := RayRow(r, d, i), RayCol(c, d, i);
    if OnBoard(x, y) {
      assert g[x][y] == h[x][y];
      if IsEnemy(g[x][y], own) {
        assert AgreeOnRay(g, h, r, c, d, i + 1);
        BracketAtFrame(g, h, own, r, c, d, i + 1);
        assert BracketAt(g, own, r, c, d, i) == BracketAt(g, own, r, c, d, i + 1);
        assert BracketAt(h, own, r, c, d, i) == BracketAt(h, own, r, c, d, i + 1);
      }
    }
  }

  /** g and h agree on every square of the ray from distance i outward. */
  ghost predicate AgreeOnRay(g: Grid, h: Grid, r: int, c: int, d: Dir, i: int)
    requires IsDir(d)
  {
    forall j :: i <= j && OnBoard(RayRow(r, d, j), RayCol(c, d, j)) ==>
      g[RayRow(r, d, j)][RayCol(c, d, j)] == h[RayRow(r, d, j)][RayCol(c, d, j)]
  }

  /** A direction whose neighbour is not an enemy flips nothing. */
  lemma NonEnemyRunIsEmpty(g: Grid, own: Cell, r: int, c: int, d: Dir)
    requires OnBoard(r, c) && IsDir(d) && !IsEnemyNeighbour(g, own, r, c, d)
    ensures RunLength(g, own, r, c, d) == 0
  {
    assert RayRow(r, d, 1) == r + d.dr && RayCol(c, d, 1) == c + d.dc;
  }

  // ---------------------------------------------------------------------------
  // Flipping one ray, then several

  /** Flipping n squares along d changes exactly squares 1..n of that ray. */
  lemma {:induction false} FlipRayAt(g: Grid, own: Cell, r: int, c: int, d: Dir, n: nat, x: int, y: int)
    requires IsDir(d) && RayOnBoard(r, c, d, n) && OnBoard(x, y)
    ensures FlipRay(g, own, r, c, d, n)[x][y] == if OnRay(r, c, d, n, x, y) then own else g[x][y]
  {
    if n > 0 {
      var px, py := RayRow(r, d, n), RayCol(c, d, n);
      FlipRayAt(g, own, r, c, d, n - 1, x, y);
      assert FlipRay(g, own, r, c, d, n)[x][y] ==
        if (x, y) == (px, py) then own else FlipRay(g, own, r, c, d, n - 1)[x][y];
      if (x, y) == (px, py) {
        RayPoint(r, c, d, n);
      } else if OnRay(r, c, d, n, x, y) {
        AlignedPoint(r, c, x, y);
        assert Dist(r, c, x, y) != n;
      }
    }
  }

  /**
   * Flipping distinct directions one after another changes exactly the squares
   * in their runs, judged on the original grid.
   */
  lemma {:induction false} FlipAllAt(g: Grid, own: Cell, r: int, c: int, ds: seq<Dir>, x: int, y: int)
    requires OnBoard(r, c) && OnBoard(x, y) && AllDirs(ds) && Distinct(ds)
    ensures FlipAll(g, own, r, c, ds)[x][y] ==
      if DirTo(r, c, x, y) in ds && InRun(g, own, r, c, x, y) then own else g[x][y]
    decreases |ds|, 0
  {
    if |ds| > 0 {
      var pre, d := ds[..|ds| - 1], ds[|ds| - 1];
      assert forall e :: e in ds <==> e in pre || e == d;
      var h := FlipAll(g, own, r, c, pre);
      RunAfterFlips(g, own, r, c, pre, d);
      var n := RunLength(h, own, r, c, d);
      BracketAtSpec(h, own, r, c, d, 1);
      FlipRayAt(h, own, r, c, d, n, x, y);
      FlipAllAt(g, own, r, c, pre, x, y);
    }
  }

  /** A direction not yet processed is scanned on the flipped grid as on the original. */
  lemma {:induction false} RunAfterFlips(g: Grid, own: Cell, r: int, c: int, ds: seq<Dir>, d: Dir)
    requires OnBoard(r, c) && AllDirs(ds) && Distinct(ds) && IsDir(d) && d !in ds
    ensures RunLength(FlipAll(g, own, r, c, ds), own, r, c, d) == RunLength(g, own, r, c, d)
    decreases |ds|, 1
  {
    var h := FlipAll(g, own, r, c, ds);
    forall j | 1 <= j && OnBoard(RayRow(r, d, j), RayCol(c, d, j))
      ensures h[RayRow(r, d, j)][RayCol(c, d, j)] == g[RayRow(r, d, j)][RayCol(c, d, j)]
    {
      RayPoint(r, c, d, j);
      FlipAllAt(g, own, r, c, ds, RayRow(r, d, j), RayCol(c, d, j));
    }
    assert AgreeOnRay(h, g, r, c, d, 1);
    BracketAtFrame(h, g, own, r, c, d, 1);
  }

  /** A zero flip count means flip_cells wrote nothing. */
  lemma {:induction false} NoFlipNoWrite(g: Grid, own: Cell, r: int, c: int, ds: seq<Dir>)
    requires OnBoard(r, c) && AllDirs(ds) && FlipCount(g, own, r, c, ds) == 0
    ensures FlipAll(g, own, r, c, ds) == g
    decreases |ds|
  {
    if |ds| > 0 {
      NoFlipNoWrite(g, own, r, c, ds[..|ds| - 1]);
    }
  }

  /** The sum of the runs of ds, each judged on the original grid. */
  function SumRuns(g: Grid, own: Cell, r: int, c: int, ds: seq<Dir>): nat
    requires OnBoard(r, c) && AllDirs(ds)
    decreases |ds|
  {
    if |ds| == 0 then 0 else SumRuns(g, own, r, c, ds[..|ds| - 1]) + RunLength(g, own, r, c, ds[|ds| - 1])
  }

  /** The count flip_cells returns is the sum of the independent runs. */
  lemma {:induction false} FlipCountIsSum(g: Grid, own: Cell, r: int, c: int, ds: seq<Dir>)
    requires OnBoard(r, c) && AllDirs(ds) && Distinct(ds)
    ensures FlipCount(g, own, r, c, ds) == SumRuns(g, own, r, c, ds)
    decreases |ds|
  {
    if |ds| > 0 {
      var pre, d := ds[..|ds| - 1], ds[|ds| - 1];
      FlipCountIsSum(g, own, r, c, pre);
      RunAfterFlips(g, own, r, c, pre, d);
    }
  }

  /** The sum of runs is positive exactly when one of the runs is. */
  lemma {:induction false} SumRunsPositive(g: Grid, own: Cell, r: int, c: int, ds: seq<Dir>)
    requires OnBoard(r, c) && AllDirs(ds)
    ensures SumRuns(g, own, r, c, ds) > 0 <==> exists d :: d in ds && RunLength(g, own, r, c, d) > 0
    decreases |ds|
  {
    if |ds| > 0 {
      var pre, d := ds[..|ds| - 1], ds[|ds| - 1];
      assert forall e :: e in ds <==> e in pre || e == d;
      SumRunsPositive(g, own, r, c, pre);
    }
  }

  // ---------------------------------------------------------------------------
  // Counting squares

  lemma {:induction false} RowCountUpdate(row: seq<Cell>, y: int, v: Cell, w: Cell, n: nat)
    requires 0 <= y < |row| && n <= |row|
    ensures RowCount(row[y := v], w, n) ==
      RowCount(row, w, n) + (if y < n then (if v == w then 1 else 0) - (if row[y] == w then 1 else 0) else 0)
  {
    if n > 0 {
      RowCountUpdate(row, y, v, w, n - 1);
    }
  }

  lemma {:induction false} CountRowsUpdate(g: Grid, x: int, y: int, v: Cell, w: Cell, i: nat)
    requires OnBoard(x, y) && i <= 8
    ensures CountRows(Set(g, x, y, v), w, i) ==
      CountRows(g, w, i) + (if x < i then (if v == w then 1 else 0) - (if g[x][y] == w then 1 else 0) else 0)
  {
    if i > 0 {
      CountRowsUpdate(g, x, y, v, w, i - 1);
      if x == i - 1 {
        RowCountUpdate(g[x], y, v, w, 8);
      }
    }
  }

  /** Replacing one square moves the count of w by at most one, in the expected direction. */
  lemma CountSet(g: Grid, x: int, y: int, v: Cell, w: Cell)
    requires OnBoard(x, y)
    ensures Count(Set(g, x, y, v), w) ==
      Count(g, w) + (if v == w then 1 else 0) - (if g[x][y] == w then 1 else 0)
  {
    CountRowsUpdate(g, x, y, v, w, 8);
  }

  lemma {:induction false} RowCountTotal(row: seq<Cell>, n: nat)
    requires n <= |row|
    ensures RowCount(row, Cell.Black, n) + RowCount(row, Cell.White, n) + RowCount(row, Cell.Empty, n) == n
  {
    if n > 0 {
      RowCountTotal(row, n - 1);
    }
  }

  lemma {:induction false} CountRowsTotal(g: Grid, i: nat)
    requires i <= 8
    ensures CountRows(g, Cell.Black, i) + CountRows(g, Cell.White, i) + CountRows(g, Cell.Empty, i) == 8 * i
  {
    if i > 0 {
      CountRowsTotal(g, i - 1);
      RowCountTotal(g[i - 1], 8);
    }
  }

  /** Every square is Black, White or Empty: the three counts always add up to 64. */
  lemma CountConservation(g: Grid)
    ensures Count(g, Cell.Black) + Count(g, Cell.White) + Count(g, Cell.Empty) == 64
  {
    CountRowsTotal(g, 8);
  }

  lemma {:induction false} RowCountAbsent(row: seq<Cell>, w: Cell, n: nat)
    requires n <= |row| && forall y | 0 <= y < n :: row[y] != w
    ensures RowCount(row, w, n) == 0
  {
    if n > 0 {
      RowCountAbsent(row, w, n - 1);
    }
  }

  lemma {:induction false} CountRowsAbsent(g: Grid, w: Cell, i: nat)
    requires i <= 8 && forall x, y | 0 <= x < 8 && 0 <= y < 8 :: g[x][y] != w
    ensures CountRows(g, w, i) == 0
  {
    if i > 0 {
      CountRowsAbsent(g, w, i - 1);
      RowCountAbsent(g[i - 1], w, 8);
    }
  }

  /** Flipping n enemy squares of one ray moves n squares from the enemy's count to own's. */
  lemma {:induction false} FlipRayCount(h: Grid, own: Cell, r: int, c: int, d: Dir, n: nat, w: Cell)
    requires own != Cell.Empty && IsDir(d) && RayOnBoard(r, c, d, n)
    requires forall j :: 1 <= j <= n ==> IsEnemy(h[RayRow(r, d, j)][RayCol(c, d, j)], own)
    ensures Count(FlipRay(h, own, r, c, d, n), w) ==
      Count(h, w) + (if w == own then n as int else if w == Cell.Empty then 0 else -(n as int))
  {
    if n > 0 {
      FlipRayCount(h, own, r, c, d, n - 1, w);
      var x, y := RayRow(r, d, n), RayCol(c, d, n);
      RayPoint(r, c, d, n);
      FlipRayAt(h, own, r, c, d, n - 1, x, y);
      CountSet(FlipRay(h, own, r, c, d, n - 1), x, y, own, w);
    }
  }

  /** flip_cells moves exactly its returned count from the enemy's squares to own's. */
  lemma {:induction false} FlipAllCount(g: Grid, own: Cell, r: int, c: int, ds: seq<Dir>, w: Cell)
    requires own != Cell.Empty && OnBoard(r, c) && AllDirs(ds)
    ensures Count(FlipAll(g, own, r, c, ds), w) ==
      Count(g, w) + (if w == own then FlipCount(g, own, r, c, ds) as int
                     else if w == Cell.Empty then 0 else -(FlipCount(g, own, r, c, ds) as int))
    decreases |ds|
  {
    if |ds| > 0 {
      var pre, d := ds[..|ds| - 1], ds[|ds| - 1];
      FlipAllCount(g, own, r, c, pre, w);
      var h := FlipAll(g, own, r, c, pre);
      BracketAtSpec(h, own, r, c, d, 1);
      FlipRayCount(h, own, r, c, d, RunLength(h, own, r, c, d), w);
    }
  }

  /** The squares the scans flip are exactly the squares the capture rule names. */
  lemma CapturedIffInRun(g: Grid, own: Cell, r: int, c: int, x: int, y: int)
    requires own != Cell.Empty && OnBoard(r, c)
    ensures Captured(g, own, r, c, x, y) <==> InRun(g, own, r, c, x, y)
  {
    if (x, y) != (r, c) && Aligned(r, c, x, y) {
      AlignedPoint(r, c, x, y);
      var d := DirTo(r, c, x, y);
      var n := RunLength(g, own, r, c, d);
      if Captured(g, own, r, c, x, y) {
        var k :| Dist(r, c, x, y) <= k && Bracketed(g, own, r, c, d, k);
        RunLengthIsBracket(g, own, r, c, d, k);
      }
      if InRun(g, own, r, c, x, y) {
        RunLengthIsBracket(g, own, r, c, d, n);
        assert Dist(r, c, x, y) <= n && Bracketed(g, own, r, c, d, n);
      }
    }
  }

  // ---------------------------------------------------------------------------
  // Placement

  /**
   * A successful placement sets the target to the placer's colour, flips
   * exactly the captured squares, and leaves every other square as it was.
   */
  lemma PutCells(g: Grid, p: Piece, r: int, c: int, x: int, y: int)
    requires IsLegal(g, p, r, c) && OnBoard(x, y)
    ensures PutGrid(g, p, r, c)[x][y] ==
      if (x, y) == (r, c) || Captured(g, PieceCell(p), r, c, x, y) then PieceCell(p) else g[x][y]
  {
    var own := PieceCell(p);
    CapturedIffInRun(g, own, r, c, x, y);
    var es := EnemyDirs(g, own, r, c);
    FlipAllAt(g, own, r, c, es, x, y);
    if (x, y) != (r, c) && Aligned(r, c, x, y) && DirTo(r, c, x, y) !in es {
      AlignedPoint(r, c, x, y);
      NonEnemyRunIsEmpty(g, own, r, c, DirTo(r, c, x, y));
    }
  }

  /** A failed placement leaves the grid as it was. */
  lemma PutErrorUnchanged(g: Grid, p: Piece, r: int, c: int)
    requires PutOutcome(g, p, r, c) == Result.Error
    ensures PutGrid(g, p, r, c) == g && Flipped(g, p, r, c) == 0
  {
  }

  /**
   * A successful placement flipping k squares raises the placer's score by
   * k + 1 (at least 2), lowers the opponent's by k and uses one Empty square.
   */
  lemma PutScore(g: Grid, p: Piece, r: int, c: int)
    requires IsLegal(g, p, r, c)
    ensures Flipped(g, p, r, c) >= 1
    ensures Count(PutGrid(g, p, r, c), PieceCell(p)) == Count(g, PieceCell(p)) + Flipped(g, p, r, c) + 1
    ensures Count(PutGrid(g, p, r, c), PieceCell(Opponent(p))) == Count(g, PieceCell(Opponent(p))) - Flipped(g, p, r, c)
    ensures Count(PutGrid(g, p, r, c), Cell.Empty) == Count(g, Cell.Empty) - 1
  {
    var own, other := PieceCell(p), PieceCell(Opponent(p));
    var es := EnemyDirs(g, own, r, c);
    var f := FlipAll(g, own, r, c, es);
    FlipAllAt(g, own, r, c, es, r, c);
    assert f[r][c] == Cell.Empty;
    FlipAllCount(g, own, r, c, es, own);
    FlipAllCount(g, own, r, c, es, other);
    FlipAllCount(g, own, r, c, es, Cell.Empty);
    CountSet(f, r, c, own, own);
    CountSet(f, r, c, own, other);
    CountSet(f, r, c, own, Cell.Empty);
  }

  /** Every legal placement leaves the placer with a score of at least 2. */
  lemma LegalScoreAtLeastTwo(g: Grid, p: Piece, r: int, c: int)
    requires IsLegal(g, p, r, c)
    ensures ScoreAfter(g, p, r, c) >= 2
  {
    PutScore(g, p, r, c);
  }

  /** A legal placement brackets at least one direction. */
  lemma LegalIsBracketed(g: Grid, p: Piece, r: int, c: int) returns (d: Dir, k: int)
    requires IsLegal(g, p, r, c)
    ensures OnBoard(r, c) && g[r][c] == Cell.Empty
    ensures IsDir(d) && Bracketed(g, PieceCell(p), r, c, d, k)
  {
    var own := PieceCell(p);
    var es := EnemyDirs(g, own, r, c);
    FlipCountIsSum(g, own, r, c, es);
    SumRunsPositive(g, own, r, c, es);
    d :| d in es && RunLength(g, own, r, c, d) > 0;
    k := RunLength(g, own, r, c, d);
    RunLengthIsBracket(g, own, r, c, d, k);
  }

  /** An Empty square from which some direction is bracketed is a legal placement. */
  lemma BracketedIsLegal(g: Grid, p: Piece, r: int, c: int, d: Dir, k: int)
    requires OnBoard(r, c) && g[r][c] == Cell.Empty && IsDir(d) && Bracketed(g, PieceCell(p), r, c, d, k)
    ensures IsLegal(g, p, r, c)
  {
    var own := PieceCell(p);
    var es := EnemyDirs(g, own, r, c);
    RunLengthIsBracket(g, own, r, c, d, k);
    assert RayRow(r, d, 1) == r + d.dr && RayCol(c, d, 1) == c + d.dc;
    assert IsEnemyNeighbour(g, own, r, c, d);
    assert d in es;
    FlipCountIsSum(g, own, r, c, es);
    SumRunsPositive(g, own, r, c, es);
  }

  /**
   * The engine's notion of a legal placement is the rule of the game: an Empty
   * square on the board from which some direction is bracketed.
   */
  lemma LegalIffBracketed(g: Grid, p: Piece, r: int, c: int)
    ensures IsLegal(g, p, r, c) <==>
      OnBoard(r, c) && g[r][c] == Cell.Empty && exists d, k :: IsDir(d) && Bracketed(g, PieceCell(p), r, c, d, k)
  {
    if IsLegal(g, p, r, c) {
      var d, k := LegalIsBracketed(g, p, r, c);
    }
    if OnBoard(r, c) && g[r][c] == Cell.Empty && exists d, k :: IsDir(d) && Bracketed(g, PieceCell(p), r, c, d, k) {
      var d, k :| IsDir(d) && Bracketed(g, PieceCell(p), r, c, d, k);
      BracketedIsLegal(g, p, r, c, d, k);
    }
  }

  // ---------------------------------------------------------------------------
  // Counting legal moves

  lemma {:induction false} CountInRowZero(g: Grid, p: Piece, i: int, j: int)
    requires 0 <= j <= 8
    ensures CountInRow(g, p, i, j) == 0 <==> forall y :: 0 <= y < j ==> !ValidSquare(g, p, i, y)
  {
    if j > 0 {
      CountInRowZero(g, p, i, j - 1);
      if ValidSquare(g, p, i, j - 1) {
        assert CountInRow(g, p, i, j) > 0;
      } else {
        assert CountInRow(g, p, i, j) == CountInRow(g, p, i, j - 1);
      }
    }
  }

  lemma {:induction false} CountBeforeZero(g: Grid, p: Piece, i: int)
    requires 0 <= i <= 8
    ensures CountBefore(g, p, i) == 0 <==> forall x, y :: 0 <= x < i && 0 <= y < 8 ==> !ValidSquare(g, p, x, y)
  {
    if i > 0 {
      CountBeforeZero(g, p, i - 1);
      CountInRowZero(g, p, i - 1, 8);
    }
  }

  /** calculate_valid_moves counts zero exactly when the side has no legal placement anywhere. */
  lemma ValidMoveCountZero(g: Grid, p: Piece)
    ensures ValidMoveCount(g, p) == 0 <==> !HasLegalMove(g, p)
  {
    CountBeforeZero(g, p, 8);
    if HasLegalMove(g, p) {
      var x, y :| OnBoard(x, y) && IsLegal(g, p, x, y);
      LegalIsEmpty(g, p, x, y);
      assert ValidSquare(g, p, x, y);
    }
  }

  /** Only an Empty square on the board can take a legal placement. */
  lemma LegalIsEmpty(g: Grid, p: Piece, r: int, c: int)
    requires IsLegal(g, p, r, c)
    ensures OnBoard(r, c) && g[r][c] == Cell.Empty
  {
  }

  // ---------------------------------------------------------------------------
  // The opening position

  /** The default board holds White at (3,3) and (4,4), Black at (3,4) and (4,3), and nothing else. */
  lemma InitialPosition(x: int, y: int)
    requires OnBoard(x, y)
    ensures InitialGrid()[x][y] ==
      if (x, y) == (3, 3) || (x, y) == (4, 4) then Cell.White
      else if (x, y) == (3, 4) || (x, y) == (4, 3) then Cell.Black
      else Cell.Empty
  {
  }

  /** Setting up the four starting pieces on an all-Empty grid leaves 2 of each colour and 60 Empty squares. */
  lemma StartingCounts(g0: Grid, w: Cell)
    requires forall x, y | 0 <= x < 8 && 0 <= y < 8 :: g0[x][y] == Cell.Empty
    ensures Count(Set(Set(Set(Set(g0, 3, 3, Cell.White), 3, 4, Cell.Black), 4, 3, Cell.Black), 4, 4, Cell.White), w)
      == if w == Cell.Empty then 60 else 2
  {
    var g1 := Set(g0, 3, 3, Cell.White);
    var g2 := Set(g1, 3, 4, Cell.Black);
    var g3 := Set(g2, 4, 3, Cell.Black);
    CountRowsAbsent(g0, Cell.Black, 8);
    CountRowsAbsent(g0, Cell.White, 8);
    CountConservation(g0);
    CountSet(g0, 3, 3, Cell.White, w);
    CountSet(g1, 3, 4, Cell.Black, w);
    CountSet(g2, 4, 3, Cell.Black, w);
    CountSet(g3, 4, 4, Cell.White, w);
  }

  /** Black, who moves first, has a legal move on the default board: (2, 3) brackets (3, 3) against (4, 3). */
  lemma OpeningHasMove()
    ensures IsLegal(InitialGrid(), Piece.Black, 2, 3)
    ensures HasLegalMove(InitialGrid(), Piece.Black)
  {
    InitialPosition(2, 3);
    InitialPosition(3, 3);
    InitialPosition(4, 3);
    BracketedIsLegal(InitialGrid(), Piece.Black, 2, 3, Dir(1, 0), 1);
  }

  /** On the default board each side scores 2 and 60 squares are Empty. */
  lemma InitialScores()
    ensures forall w :: Count(InitialGrid(), w) == if w == Cell.Empty then 60 else 2
  {
    forall w
      ensures Count(InitialGrid(), w) == if w == Cell.Empty then 60 else 2
    {
      StartingCounts(EmptyGrid(), w);
    }
  }
}
