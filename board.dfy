/** The 9-cell game board: pure functions on board snapshots and the mutable `Gameboard`. */
module Board {
  import opened Marks

  /** Number of cells on the board (indices 0 to 8, row by row). */
  const Size: nat := 9

  /** The board every game starts from: nine empty cells. */
  function EmptyBoard(): (b: seq<Mark>)
    ensures |b| == Size
    ensures forall i :: 0 <= i < |b| ==> b[i] == Empty
  {
    seq(Size, _ => Empty)
  }

  /**
   * The effect of `setMark(index, mark)` on a snapshot `b`: the mark is written only into an
   * existing empty cell. An out-of-range index reads as "not empty" (in script.js the cell
   * lookup yields `undefined`), so it is refused like an occupied cell.
   * The result pairs the returned flag with the new snapshot.
   */
  function Place(b: seq<Mark>, index: int, m: Mark): (r: (bool, seq<Mark>))
    ensures r.0 <==> 0 <= index < |b| && b[index] == Empty
    ensures |r.1| == |b|
    ensures r.0 ==> r.1[index] == m
    ensures forall j :: 0 <= j < |b| && j != index ==> r.1[j] == b[j]
    ensures !r.0 ==> r.1 == b
  {
    if 0 <= index < |b| && b[index] == Empty then (true, b[index := m]) else (false, b)
  }

  /** Number of cells of `b` that hold `m`. */
  function Count(b: seq<Mark>, m: Mark): (n: nat)
    ensures n <= |b|
    ensures n == 0 <==> forall i :: 0 <= i < |b| ==> b[i] != m
    ensures n == |b| <==> forall i :: 0 <= i < |b| ==> b[i] == m
  {
    if b == [] then 0 else (if b[0] == m then 1 else 0) + Count(b[1..], m)
  }

  /** Overwriting one cell moves one unit of count from the old mark to the new one. */
  lemma {:induction false} CountAfterUpdate(b: seq<Mark>, i: int, m: Mark, x: Mark)
    requires 0 <= i < |b|
    ensures Count(b[i := m], x)
            == Count(b, x) - (if b[i] == x then 1 else 0) + (if m == x then 1 else 0)
  {
    if i == 0 {
      assert b[i := m][1..] == b[1..];
    } else {
      assert b[i := m][1..] == b[1..][i - 1 := m];
      CountAfterUpdate(b[1..], i - 1, m, x);
    }
  }

  /** The board object: a fixed buffer of nine cells, updated in place. */
  class Gameboard {
    var cells: array<Mark>

    /** The board always has exactly nine cells. */
    ghost predicate Valid()
      reads this
    {
      cells.Length == Size
    }

    /** A new board is empty. */
    constructor ()
      ensures Valid() && fresh(cells)
      ensures GetBoard() == EmptyBoard()
    {
      cells := new Mark[Size](_ => Empty);
    }

    /** A read-only snapshot of the nine cells. */
    function GetBoard(): (s: seq<Mark>)
      reads this, cells
      requires Valid()
      ensures |s| == Size
    {
      cells[..]
    }

    /** Writes `mark` at `index` if that cell exists and is empty; reports whether it did. */
    method SetMark(index: int, mark: Mark) returns (ok: bool)
      requires Valid()
      modifies cells
      ensures Valid()
      ensures (ok, GetBoard()) == Place(old(GetBoard()), index, mark)
    {
      if 0 <= index < cells.Length && cells[index] == Empty {
        cells[index] := mark;
        ok := true;
      } else {
        ok := false;
      }
    }

    /** Replaces the cells by a fresh, empty buffer. */
    method Reset()
      modifies this
      ensures Valid() && fresh(cells)
      ensures GetBoard() == EmptyBoard()
    {
      cells := new Mark[Size](_ => Empty);
    }
  }
}
