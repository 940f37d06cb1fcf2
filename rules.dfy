/**
 * The placement rule as pure functions of a grid: which neighbours are enemies,
 * how far a ray runs before it is bracketed, the grid after flipping, and the
 * outcome and resulting grid of a placement. The imperative board code is
 * proved against these definitions; the lemmas in RulesProofs say what they mean.
 */
module Rules {
  import opened ReversiTypes

  /** A direction from the placed square (row difference, column difference). */
  datatype Dir = Dir(dr: int, dc: int)

  /** One of the eight compass directions. */
  predicate IsDir(d: Dir) {
    -1 <= d.dr <= 1 && -1 <= d.dc <= 1 && (d.dr != 0 || d.dc != 0)
  }

  /** Coordinate `i` unit steps from `x`; written without a product to keep the arithmetic linear. */
  function Step(x: int, delta: int, i: int): int
    requires -1 <= delta <= 1
  {
    if delta == 0 then x else if delta > 0 then x + i else x - i
  }

  /** The row and column of the square `i` steps from (r, c) along d. */
  function RayRow(r: int, d: Dir, i: int): int
    requires IsDir(d)
  {
    Step(r, d.dr, i)
  }

  function RayCol(c: int, d: Dir, i: int): int
    requires IsDir(d)
  {
    Step(c, d.dc, i)
  }

  /** Squares 1 to n along d all lie on the board. */
  predicate RayOnBoard(r: int, c: int, d: Dir, n: int)
    requires IsDir(d)
  {
    forall j :: 1 <= j <= n ==> OnBoard(RayRow(r, d, j), RayCol(c, d, j))
  }

  // ---------------------------------------------------------------------------
  // Scanning one ray

  /**
   * The outward scan of one ray, from distance i on, as flip_cells performs it:
   * the number of squares to flip (the distance of the first own-colour square
   * minus one), or 0 when the edge or an Empty square comes first.
   */
  function BracketAt(g: Grid, own: Cell, r: int, c: int, d: Dir, i: int): nat
    requires OnBoard(r, c) && IsDir(d) && 1 <= i
    decreases 8 - i
  {
    var x, y := RayRow(r, d, i), RayCol(c, d, i);
    if !OnBoard(x, y) then 0
    else if g[x][y] == Cell.Empty then 0
    else if g[x][y] == own then i - 1
    else BracketAt(g, own, r, c, d, i + 1)
  }

  /** A ray square on the board is at most 7 steps out. */
  lemma RayWithinBoard(r: int, c: int, d: Dir, i: int)
    requires OnBoard(r, c) && IsDir(d) && OnBoard(RayRow(r, d, i), RayCol(c, d, i))
    ensures i <= 7
  {
  }

  /** Square k along d from (r, c) is on the board and holds own. */
  predicate OwnAt(g: Grid, own: Cell, r: int, c: int, d: Dir, k: int)
    requires IsDir(d)
  {
    OnBoard(RayRow(r, d, k), RayCol(c, d, k)) && g[RayRow(r, d, k)][RayCol(c, d, k)] == own
  }

  /** A nonzero scan result n stops at an own-colour square at distance n + 1. */
  lemma {:induction false} BracketAtEnd(g: Grid, own: Cell, r: int, c: int, d: Dir, i: int)
    requires OnBoard(r, c) && IsDir(d) && 1 <= i
    decreases 8 - i
    ensures var n := BracketAt(g, own, r, c, d, i);
      n == 0 || (i - 1 <= n && OwnAt(g, own, r, c, d, n + 1))
  {
    var x, y := RayRow(r, d, i), RayCol(c, d, i);
    if !OnBoard(x, y) || g[x][y] == Cell.Empty {
    } else if g[x][y] == own {
      assert BracketAt(g, own, r, c, d, i) == i - 1;
      assert OwnAt(g, own, r, c, d, i);
    } else {
      RayWithinBoard(r, c, d, i);
      BracketAtEnd(g, own, r, c, d, i + 1);
      assert BracketAt(g, own, r, c, d, i) == BracketAt(g, own, r, c, d, i + 1);
    }
  }

  /** A nonzero scan result n was found by passing enemy squares from distance i to n. */
  lemma {:induction false} BracketAtRun(g: Grid, own: Cell, r: int, c: int, d: Dir, i: int)
    requires OnBoard(r, c) && IsDir(d) && 1 <= i
    decreases 8 - i
    ensures var n := BracketAt(g, own, r, c, d, i);
      n == 0 || forall j :: i <= j <= n ==>
        OnBoard(RayRow(r, d, j), RayCol(c, d, j)) && IsEnemy(g[RayRow(r, d, j)][RayCol(c, d, j)], own)
  {
    var x, y := RayRow(r, d, i), RayCol(c, d, i);
    if !OnBoard(x, y) || g[x][y] == Cell.Empty {
    } else if g[x][y] == own {
      assert BracketAt(g, own, r, c, d, i) == i - 1;
    } else {
      RayWithinBoard(r, c, d, i);
      BracketAtRun(g, own, r, c, d, i + 1);
      var n := BracketAt(g, own, r, c, d, i + 1);
      assert BracketAt(g, own, r, c, d, i) == n;
      if n != 0 {
        forall j | i <= j <= n
          ensures OnBoard(RayRow(r, d, j), RayCol(c, d, j)) && IsEnemy(g[RayRow(r, d, j)][RayCol(c, d, j)], own)
        {
          if j != i {
            assert i + 1 <= j <= n;
          }
        }
      }
    }
  }

  /**
   * A nonzero scan result n was found by passing enemy squares from distance i
   * to n and stopping at an own-colour square at distance n + 1, all on the board.
   */
  lemma BracketAtSpec(g: Grid, own: Cell, r: int, c: int, d: Dir, i: int)
    requires OnBoard(r, c) && IsDir(d) && 1 <= i
    ensures var n := BracketAt(g, own, r, c, d, i);
      && (n == 0 || i - 1 <= n)
      && (n == 0 || RayOnBoard(r, c, d, n + 1))
      && (n == 0 || g[RayRow(r, d, n + 1)][RayCol(c, d, n + 1)] == own)
      && (n == 0 || forall j :: i <= j <= n ==> IsEnemy(g[RayRow(r, d, j)][RayCol(c, d, j)], own))
  {
    BracketAtEnd(g, own, r, c, d, i);
    BracketAtRun(g, own, r, c, d, i);
    var n := BracketAt(g, own, r, c, d, i);
    if n != 0 {
      RayConvex(r, c, d, n + 1);
    }
  }

  lemma RayConvex(r: int, c: int, d: Dir, n: int)
    requires OnBoard(r, c) && IsDir(d) && OnBoard(RayRow(r, d, n), RayCol(c, d, n))
    ensures RayOnBoard(r, c, d, n)
  {
  }

  /** How many squares a placement at (r, c) flips along d. */
  function RunLength(g: Grid, own: Cell, r: int, c: int, d: Dir): (n: nat)
    requires OnBoard(r, c) && IsDir(d)
    ensures RayOnBoard(r, c, d, n)
  {
    BracketAtSpec(g, own, r, c, d, 1);
    BracketAt(g, own, r, c, d, 1)
  }

  /**
   * The rule itself, independently of any scan: squares 1..k along d hold the
   * opposite colour and square k + 1 holds the placer's own colour.
   */
  ghost predicate Bracketed(g: Grid, own: Cell, r: int, c: int, d: Dir, k: int)
    requires IsDir(d)
  {
    && 1 <= k
    && RayOnBoard(r, c, d, k + 1)
    && (forall j :: 1 <= j <= k ==> IsEnemy(g[RayRow(r, d, j)][RayCol(c, d, j)], own))
    && g[RayRow(r, d, k + 1)][RayCol(c, d, k + 1)] == own
  }

  // ---------------------------------------------------------------------------
  // Flipping

  /** The grid with squares 1..n along d set to `own`, written in the order flip_cells writes them. */
  function FlipRay(g: Grid, own: Cell, r: int, c: int, d: Dir, n: nat): Grid
    requires IsDir(d) && RayOnBoard(r, c, d, n)
  {
    if n == 0 then g
    else Set(FlipRay(g, own, r, c, d, n - 1), RayRow(r, d, n), RayCol(c, d, n), own)
  }

  /** Every direction of ds is a compass direction. */
  predicate AllDirs(ds: seq<Dir>) {
    forall d <- ds :: IsDir(d)
  }

  /**
   * The grid after flip_cells has processed the directions ds in order; each
   * ray is scanned on the grid as the earlier directions left it.
   */
  function FlipAll(g: Grid, own: Cell, r: int, c: int, ds: seq<Dir>): Grid
    requires OnBoard(r, c) && AllDirs(ds)
    decreases |ds|
  {
    if |ds| == 0 then g
    else
      var h := FlipAll(g, own, r, c, ds[..|ds| - 1]);
      var d := ds[|ds| - 1];
      FlipRay(h, own, r, c, d, RunLength(h, own, r, c, d))
  }

  /** The count flip_cells returns: the squares flipped over all directions of ds. */
  function FlipCount(g: Grid, own: Cell, r: int, c: int, ds: seq<Dir>): nat
    requires OnBoard(r, c) && AllDirs(ds)
    decreases |ds|
  {
    if |ds| == 0 then 0
    else
      var h := FlipAll(g, own, r, c, ds[..|ds| - 1]);
      FlipCount(g, own, r, c, ds[..|ds| - 1]) + RunLength(h, own, r, c, ds[|ds| - 1])
  }

  // ---------------------------------------------------------------------------
  // Enemy neighbours

  /** The k-th of the nine offsets get_enemy_positions visits, row offset outer. */
  function Offset(k: int): Dir {
    var dr := if k < 3 then -1 else if k < 6 then 0 else 1;
    Dir(dr, k - 3 * (dr + 1) - 1)
  }

  /** The position of offset d in the visiting order. */
  function OffsetIndex(d: Dir): int {
    3 * (d.dr + 1) + (d.dc + 1)
  }

  /** The tests get_enemy_positions applies to one offset, in its order. */
  predicate IsEnemyNeighbour(g: Grid, own: Cell, r: int, c: int, d: Dir) {
    && OnBoard(r + d.dr, c + d.dc)
    && !(d.dr == 0 && d.dc == 0)
    && IsEnemy(g[r + d.dr][c + d.dc], own)
  }

  predicate Distinct(ds: seq<Dir>) {
    forall a, b | 0 <= a < b < |ds| :: ds[a] != ds[b]
  }

  /** The offsets among the first k visited that pass the enemy-neighbour tests, in visiting order. */
  function EnemyPrefix(g: Grid, own: Cell, r: int, c: int, k: int): seq<Dir>
  {
    if k <= 0 then []
    else
      var d := Offset(k - 1);
      var before := EnemyPrefix(g, own, r, c, k - 1);
      if IsEnemyNeighbour(g, own, r, c, d) then before + [d] else before
  }

  /** The offsets get_enemy_positions visits: row and column offsets in -1..1. */
  predicate InNeighbourhood(d: Dir) {
    -1 <= d.dr <= 1 && -1 <= d.dc <= 1
  }

  /** The k-th offset lies in the neighbourhood at position k. */
  lemma OffsetSpec(k: int)
    requires 0 <= k < 9
    ensures InNeighbourhood(Offset(k)) && OffsetIndex(Offset(k)) == k
  {
  }

  /** Positions identify offsets. */
  lemma OffsetIndexInjective(d: Dir, e: Dir)
    requires InNeighbourhood(d) && InNeighbourhood(e) && OffsetIndex(d) == OffsetIndex(e)
    ensures d == e
  {
  }

  /**
   * The prefix holds exactly the offsets visited before position k that pass
   * the tests, in strictly increasing visiting order.
   */
  lemma {:induction false} EnemyPrefixMembers(g: Grid, own: Cell, r: int, c: int, k: int)
    requires 0 <= k <= 9
    ensures forall d :: d in EnemyPrefix(g, own, r, c, k) <==>
      InNeighbourhood(d) && OffsetIndex(d) < k && IsEnemyNeighbour(g, own, r, c, d)
    ensures forall a, b | 0 <= a < b < |EnemyPrefix(g, own, r, c, k)| ::
      OffsetIndex(EnemyPrefix(g, own, r, c, k)[a]) < OffsetIndex(EnemyPrefix(g, own, r, c, k)[b])
  {
    if k > 0 {
      EnemyPrefixMembers(g, own, r, c, k - 1);
      var before := EnemyPrefix(g, own, r, c, k - 1);
      var last := Offset(k - 1);
      OffsetSpec(k - 1);
      var es := EnemyPrefix(g, own, r, c, k);
      assert es == if IsEnemyNeighbour(g, own, r, c, last) then before + [last] else before;
      forall d
        ensures d in es <==> InNeighbourhood(d) && OffsetIndex(d) < k && IsEnemyNeighbour(g, own, r, c, d)
      {
        if InNeighbourhood(d) && OffsetIndex(d) == k - 1 {
          OffsetIndexInjective(d, last);
        }
      }
      forall a, b | 0 <= a < b < |es|
        ensures OffsetIndex(es[a]) < OffsetIndex(es[b])
      {
        assert es[a] == before[a];
        if b < |before| {
          assert es[b] == before[b];
        } else {
          assert es[b] == last;
          assert before[a] in before;
        }
      }
    }
  }

  /** The list get_enemy_positions returns: the directions whose adjacent square holds an enemy. */
  function EnemyDirs(g: Grid, own: Cell, r: int, c: int): (es: seq<Dir>)
    ensures AllDirs(es) && Distinct(es)
    ensures forall d :: d in es <==> IsDir(d) && IsEnemyNeighbour(g, own, r, c, d)
  {
    EnemyPrefixMembers(g, own, r, c, 9);
    var es := EnemyPrefix(g, own, r, c, 9);
    assert forall a, b | 0 <= a < b < |es| :: es[a] != es[b] by {
      forall a, b | 0 <= a < b < |es|
        ensures es[a] != es[b]
      {
        assert OffsetIndex(es[a]) < OffsetIndex(es[b]);
      }
    }
    es
  }

  // ---------------------------------------------------------------------------
  // Placement

  /** The result code of Board::put, branch by branch. */
  function PutOutcome(g: Grid, p: Piece, r: int, c: int): Result {
    if r < 0 || r >= 8 then Result.Error
    else if c < 0 || c >= 8 then Result.Error
    else if g[r][c] != Cell.Empty then Result.Error
    else
      var own := PieceCell(p);
      var es := EnemyDirs(g, own, r, c);
      if |es| == 0 then Result.Error
      else if FlipCount(g, own, r, c, es) == 0 then Result.Error
      else Result.Ok
  }

  predicate IsLegal(g: Grid, p: Piece, r: int, c: int) {
    PutOutcome(g, p, r, c) == Result.Ok
  }

  /** The grid after Board::put: flipped and placed when legal, untouched otherwise. */
  function PutGrid(g: Grid, p: Piece, r: int, c: int): Grid {
    if IsLegal(g, p, r, c) then
      var own := PieceCell(p);
      Set(FlipAll(g, own, r, c, EnemyDirs(g, own, r, c)), r, c, own)
    else g
  }

  /** The number of squares a placement flips (0 when it fails). */
  function Flipped(g: Grid, p: Piece, r: int, c: int): nat {
    if IsLegal(g, p, r, c) then
      var own := PieceCell(p);
      FlipCount(g, own, r, c, EnemyDirs(g, own, r, c))
    else 0
  }

  // ---------------------------------------------------------------------------
  // Geometry of the squares a placement captures

  function Abs(x: int): nat {
    if x < 0 then -x else x
  }

  function Sign(x: int): int {
    if x < 0 then -1 else if x > 0 then 1 else 0
  }

  /** (x, y) lies on the same row, column or diagonal as (r, c). */
  predicate Aligned(r: int, c: int, x: int, y: int) {
    x == r || y == c || Abs(x - r) == Abs(y - c)
  }

  /** The direction from (r, c) towards (x, y). */
  function DirTo(r: int, c: int, x: int, y: int): Dir {
    Dir(Sign(x - r), Sign(y - c))
  }

  /** The number of steps from (r, c) to an aligned (x, y). */
  function Dist(r: int, c: int, x: int, y: int): nat {
    if x != r then Abs(x - r) else Abs(y - c)
  }

  /** (x, y) is one of squares 1..n along d from (r, c). */
  predicate OnRay(r: int, c: int, d: Dir, n: int, x: int, y: int) {
    (x, y) != (r, c) && Aligned(r, c, x, y) && DirTo(r, c, x, y) == d && Dist(r, c, x, y) <= n
  }

  /** (x, y) lies within the run that the scan from (r, c) towards it flips. */
  predicate InRun(g: Grid, own: Cell, r: int, c: int, x: int, y: int)
    requires OnBoard(r, c)
  {
    (x, y) != (r, c) && Aligned(r, c, x, y)
    && Dist(r, c, x, y) <= RunLength(g, own, r, c, DirTo(r, c, x, y))
  }

  /**
   * The capture rule, independently of any scan: (x, y) lies on a line from
   * (r, c) that is bracketed at a distance beyond it.
   */
  ghost predicate Captured(g: Grid, own: Cell, r: int, c: int, x: int, y: int) {
    (x, y) != (r, c) && Aligned(r, c, x, y)
    && exists k :: Dist(r, c, x, y) <= k && Bracketed(g, own, r, c, DirTo(r, c, x, y), k)
  }

  // ---------------------------------------------------------------------------
  // Counting

  /** Occurrences of v among the first n squares of a row. */
  function RowCount(row: seq<Cell>, v: Cell, n: nat): nat
    requires n <= |row|
  {
    if n == 0 then 0 else RowCount(row, v, n - 1) + (if row[n - 1] == v then 1 else 0)
  }

  /** Occurrences of v in the first i rows. */
  function CountRows(g: Grid, v: Cell, i: nat): nat
    requires i <= 8
  {
    if i == 0 then 0 else CountRows(g, v, i - 1) + RowCount(g[i - 1], v, 8)
  }

  /** Occurrences of v on the whole board. */
  function Count(g: Grid, v: Cell): nat {
    CountRows(g, v, 8)
  }

  /** The placer's own score after placing at (r, c). */
  function ScoreAfter(g: Grid, p: Piece, r: int, c: int): nat {
    Count(PutGrid(g, p, r, c), PieceCell(p))
  }

  // ---------------------------------------------------------------------------
  // Legal moves

  /** The test calculate_valid_moves applies to one square: it is Empty and a trial placement succeeds. */
  predicate ValidSquare(g: Grid, p: Piece, x: int, y: int) {
    OnBoard(x, y) && g[x][y] == Cell.Empty && IsLegal(g, p, x, y)
  }

  /** The squares of row i among columns 0..j-1 that pass ValidSquare. */
  function CountInRow(g: Grid, p: Piece, i: int, j: int): nat
    requires 0 <= j <= 8
  {
    if j == 0 then 0 else CountInRow(g, p, i, j - 1) + (if ValidSquare(g, p, i, j - 1) then 1 else 0)
  }

  /** The squares of rows 0..i-1 that pass ValidSquare. */
  function CountBefore(g: Grid, p: Piece, i: int): nat
    requires 0 <= i <= 8
  {
    if i == 0 then 0 else CountBefore(g, p, i - 1) + CountInRow(g, p, i - 1, 8)
  }

  /** The value calculate_valid_moves returns. */
  function ValidMoveCount(g: Grid, p: Piece): nat {
    CountBefore(g, p, 8)
  }

  ghost predicate HasLegalMove(g: Grid, p: Piece) {
    exists x, y :: OnBoard(x, y) && IsLegal(g, p, x, y)
  }

  /** (x, y) comes before (i, j) in row-major order. */
  predicate RowMajorBefore(x: int, y: int, i: int, j: int) {
    x < i || (x == i && y < j)
  }

  // ---------------------------------------------------------------------------
  // The opening position

  /** The default board: empty but for the four centre squares. */
  function InitialGrid(): Grid {
    var g0: Grid := EmptyGrid();
    Set(Set(Set(Set(g0, 3, 3, Cell.White), 3, 4, Cell.Black), 4, 3, Cell.Black), 4, 4, Cell.White)
  }
}
