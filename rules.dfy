/** Win and draw detection over a board snapshot. */
module Rules {
  import opened Marks
  import opened Board

  /** A cell index. */
  type Cell = i: nat | i < Size

  /** Three cell indices that form a line. */
  type Pattern = (Cell, Cell, Cell)

  /** The eight lines checked for a win, in the order script.js lists them: rows, columns, diagonals. */
  const WinPatterns: seq<Pattern> := [
    (0, 1, 2), (3, 4, 5), (6, 7, 8),
    (0, 3, 6), (1, 4, 7), (2, 5, 8),
    (0, 4, 8), (2, 4, 6)
  ]

  /** The cells of `p` hold three equal, non-empty marks. */
  predicate IsLine(b: seq<Mark>, p: Pattern)
    requires |b| == Size
  {
    b[p.0] != Empty && b[p.0] == b[p.1] && b[p.0] == b[p.2]
  }

  /** Whether some pattern of `ps` is a line of `b` (the `some` over the pattern list). */
  function AnyLine(b: seq<Mark>, ps: seq<Pattern>): (r: bool)
    requires |b| == Size
    ensures r <==> exists k :: 0 <= k < |ps| && IsLine(b, ps[k])
  {
    if ps == [] then false
    else IsLine(b, ps[0]) || AnyLine(b, ps[1..])
  }

  /** `checkWinner`: some row, column or diagonal holds three equal marks. */
  function CheckWinner(b: seq<Mark>): (r: bool)
    requires |b| == Size
    ensures r <==> exists k :: 0 <= k < |WinPatterns| && IsLine(b, WinPatterns[k])
  {
    AnyLine(b, WinPatterns)
  }

  /** `checkDraw`: every cell is non-empty (the `every` over the board). */
  function CheckDraw(b: seq<Mark>): (r: bool)
    ensures r <==> forall i :: 0 <= i < |b| ==> b[i] != Empty
  {
    b == [] || (b[0] != Empty && CheckDraw(b[1..]))
  }

  // An independent, geometric description of a win on the 3x3 grid.

  predicate Same(b: seq<Mark>, i: nat, j: nat, k: nat)
    requires i < |b| && j < |b| && k < |b|
  {
    b[i] != Empty && b[i] == b[j] && b[j] == b[k]
  }

  predicate RowWin(b: seq<Mark>, r: nat)
    requires |b| == Size && r < 3
  {
    Same(b, 3 * r, 3 * r + 1, 3 * r + 2)
  }

  predicate ColumnWin(b: seq<Mark>, c: nat)
    requires |b| == Size && c < 3
  {
    Same(b, c, c + 3, c + 6)
  }

  predicate DiagonalWin(b: seq<Mark>)
    requires |b| == Size
  {
    Same(b, 0, 4, 8) || Same(b, 2, 4, 6)
  }

  /** Some full row, full column or full diagonal of the grid carries one player's mark. */
  predicate HasThreeInARow(b: seq<Mark>)
    requires |b| == Size
  {
    (exists r: nat :: r < 3 && RowWin(b, r)) ||
    (exists c: nat :: c < 3 && ColumnWin(b, c)) ||
    DiagonalWin(b)
  }

  /** The eight fixed patterns are exactly the rows, columns and diagonals of the grid. */
  lemma WinPatternsAreGridLines(b: seq<Mark>)
    requires |b| == Size
    ensures CheckWinner(b) <==> HasThreeInARow(b)
  {
    if CheckWinner(b) {
      var k :| 0 <= k < |WinPatterns| && IsLine(b, WinPatterns[k]);
      if k < 3 {
        assert RowWin(b, k);
      } else if k < 6 {
        assert ColumnWin(b, k - 3);
      } else {
        assert DiagonalWin(b);
      }
    }
    if HasThreeInARow(b) {
      if r: nat :| r < 3 && RowWin(b, r) {
        assert IsLine(b, WinPatterns[r]);
      } else if c: nat :| c < 3 && ColumnWin(b, c) {
        assert IsLine(b, WinPatterns[3 + c]);
      } else if Same(b, 0, 4, 8) {
        assert IsLine(b, WinPatterns[6]);
      } else {
        assert IsLine(b, WinPatterns[7]);
      }
    }
  }

  /**
   * If `b` has no line and one empty cell `i` receives `m`, every line of the new board passes
   * through `i` and carries `m`: only the player who just moved can have won.
   */
  lemma NewLineIsMovers(b: seq<Mark>, i: int, m: Mark)
    requires |b| == Size && 0 <= i < Size && b[i] == Empty
    requires !CheckWinner(b)
    ensures forall k :: 0 <= k < |WinPatterns| && IsLine(b[i := m], WinPatterns[k]) ==>
              i in {WinPatterns[k].0, WinPatterns[k].1, WinPatterns[k].2} &&
              b[i := m][WinPatterns[k].0] == m
  {
  }
}
