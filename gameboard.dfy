/** The tic-tac-toe board: nine cells in row-major order, the eight winning
    lines, and the queries the game asks of the board (who has a line, is it
    a tie). The board object itself is the class Board at the end. */
module Gameboard {

  datatype Option<+T> = None | Some(value: T)

  /** The two marks, "X" for the first player and "O" for the second. */
  datatype Mark = X | O

  /** A cell holds the empty string or a mark. */
  datatype Cell = Empty | Marked(mark: Mark)

  /** Three cell indices that win when they hold the same mark. */
  datatype Line = Line(a: nat, b: nat, c: nat)

  /** The board of a new game. */
  const EmptyBoard: seq<Cell> := [Empty, Empty, Empty, Empty, Empty, Empty, Empty, Empty, Empty]

  /** The three rows, the three columns and the two diagonals, in the order
      the game tries them. */
  const WinPatterns: seq<Line> :=
    [Line(0, 1, 2), Line(3, 4, 5), Line(6, 7, 8),
     Line(0, 3, 6), Line(1, 4, 7), Line(2, 5, 8),
     Line(0, 4, 8), Line(2, 4, 6)]

  function Other(m: Mark): Mark
  {
    if m == X then O else X
  }

  predicate OnBoard(b: seq<Cell>, l: Line)
  {
    l.a < |b| && l.b < |b| && l.c < |b|
  }

  /** All three cells of line `l` hold mark `m`. */
  predicate Uniform(b: seq<Cell>, l: Line, m: Mark)
  {
    OnBoard(b, l) && b[l.a] == Marked(m) && b[l.b] == Marked(m) && b[l.c] == Marked(m)
  }

  /** Some line of `ls` is uniform in `m`. */
  predicate HasLineIn(b: seq<Cell>, ls: seq<Line>, m: Mark)
  {
    exists k :: 0 <= k < |ls| && Uniform(b, ls[k], m)
  }

  /** Mark `m` holds a row, a column or a diagonal of `b`. */
  predicate HasLine(b: seq<Cell>, m: Mark)
  {
    HasLineIn(b, WinPatterns, m)
  }

  predicate Full(b: seq<Cell>)
  {
    forall i :: 0 <= i < |b| ==> b[i] != Empty
  }

  /** Line `k` of `ls` is uniform in `m`, and no earlier line is uniform in
      either mark. */
  predicate FirstUniform(b: seq<Cell>, ls: seq<Line>, k: nat, m: Mark)
  {
    k < |ls| && Uniform(b, ls[k], m) &&
    forall j :: 0 <= j < k ==> !Uniform(b, ls[j], X) && !Uniform(b, ls[j], O)
  }

  /** The scan of checkWin: the mark of the first line of `ls` whose first
      cell is non-empty and equal to the other two. */
  function Scan(b: seq<Cell>, ls: seq<Line>): (r: Option<Mark>)
    requires forall k :: 0 <= k < |ls| ==> OnBoard(b, ls[k])
    ensures r.Some? ==> HasLineIn(b, ls, r.value)
    ensures r.Some? ==> exists k :: FirstUniform(b, ls, k, r.value)
    ensures r.None? <==> !HasLineIn(b, ls, X) && !HasLineIn(b, ls, O)
  {
    if ls == [] then None
    else
      var l := ls[0];
      assert OnBoard(b, l);
      if b[l.a] != Empty && b[l.a] == b[l.b] && b[l.a] == b[l.c] then
        var m := b[l.a].mark;
        assert Uniform(b, ls[0], m);
        assert m == X ==> HasLineIn(b, ls, X);
        assert m == O ==> HasLineIn(b, ls, O);
        assert FirstUniform(b, ls, 0, m);
        Some(m)
      else
        var r := Scan(b, ls[1..]);
        assert forall m :: HasLineIn(b, ls[1..], m) ==> HasLineIn(b, ls, m) by {
          forall m | HasLineIn(b, ls[1..], m) ensures HasLineIn(b, ls, m) {
            var k :| 0 <= k < |ls[1..]| && Uniform(b, ls[1..][k], m);
            assert ls[k + 1] == ls[1..][k];
          }
        }
        assert forall m :: HasLineIn(b, ls, m) ==> HasLineIn(b, ls[1..], m) by {
          forall m | HasLineIn(b, ls, m) ensures HasLineIn(b, ls[1..], m) {
            var k :| 0 <= k < |ls| && Uniform(b, ls[k], m);
            assert k != 0;
            assert ls[1..][k - 1] == ls[k];
          }
        }
        assert r.Some? ==> exists k :: FirstUniform(b, ls, k, r.value) by {
          if r.Some? {
            var k: nat :| FirstUniform(b, ls[1..], k, r.value);
            assert ls[1..][k] == ls[k + 1];
            forall j | 0 <= j < k + 1 ensures !Uniform(b, ls[j], X) && !Uniform(b, ls[j], O) {
              if j > 0 {
                assert ls[1..][j - 1] == ls[j];
              }
            }
            assert FirstUniform(b, ls, k + 1, r.value);
          }
        }
        r
  }

  /** checkWin: the mark holding a line, or None. It returns a mark only if
      that mark holds a line, the first such line in the order of
      WinPatterns, and None exactly when neither mark holds one. */
  function CheckWin(b: seq<Cell>): (r: Option<Mark>)
    requires |b| == 9
    ensures r.Some? ==> HasLine(b, r.value)
    ensures r.Some? ==> exists k :: FirstUniform(b, WinPatterns, k, r.value)
    ensures r.None? <==> !HasLine(b, X) && !HasLine(b, O)
  {
    Scan(b, WinPatterns)
  }

  /** checkTie: every cell is filled and nobody holds a line. */
  function CheckTie(b: seq<Cell>): (r: bool)
    requires |b| == 9
    ensures r <==> Full(b) && !HasLine(b, X) && !HasLine(b, O)
    ensures r ==> CheckWin(b) == None
  {
    Full(b) && CheckWin(b) == None
  }

  /** The number of cells of `b` equal to `c`. */
  function Count(b: seq<Cell>, c: Cell): nat
  {
    if b == [] then 0 else (if b[0] == c then 1 else 0) + Count(b[1..], c)
  }

  /** Writing `v` at `i` moves one cell from the count of `b[i]` to the count of `v`. */
  lemma {:induction false} CountUpdate(b: seq<Cell>, i: nat, v: Cell, c: Cell)
    requires i < |b|
    ensures Count(b[i := v], c) ==
            Count(b, c) - (if b[i] == c then 1 else 0) + (if v == c then 1 else 0)
  {
    if i == 0 {
      assert b[i := v][1..] == b[1..];
    } else {
      CountUpdate(b[1..], i - 1, v, c);
      assert b[i := v][1..] == b[1..][i - 1 := v];
    }
  }

  /** A value that occurs in no cell is counted zero times. */
  lemma {:induction false} CountAbsent(b: seq<Cell>, c: Cell)
    requires forall i :: 0 <= i < |b| ==> b[i] != c
    ensures Count(b, c) == 0
  {
    if b != [] {
      assert forall i :: 0 <= i < |b[1..]| ==> b[1..][i] == b[i + 1];
      CountAbsent(b[1..], c);
    }
  }

  /** Every cell is empty, an X or an O. */
  lemma {:induction false} CountTotal(b: seq<Cell>)
    ensures Count(b, Empty) + Count(b, Marked(X)) + Count(b, Marked(O)) == |b|
  {
    if b != [] {
      CountTotal(b[1..]);
      match b[0]
      case Empty =>
      case Marked(m) => assert m == X || m == O;
    }
  }

  /** A board is full exactly when it has no empty cell left. */
  lemma {:induction false} FullCount(b: seq<Cell>)
    ensures Full(b) <==> Count(b, Empty) == 0
  {
    if b != [] {
      FullCount(b[1..]);
      if Full(b) {
        assert Full(b[1..]) by {
          forall i | 0 <= i < |b[1..]| ensures b[1..][i] != Empty {
            assert b[1..][i] == b[i + 1];
          }
        }
      }
      if Count(b, Empty) == 0 {
        forall i | 0 <= i < |b| ensures b[i] != Empty {
          if i > 0 {
            assert b[i] == b[1..][i - 1];
          }
        }
      }
    }
  }

  /** The board object: the nine cells, written one at a time by SetMark and
      replaced by a fresh empty board on Reset. */
  class Board {
    var cells: seq<Cell>

    ghost predicate Valid()
      reads this
    {
      |cells| == 9
    }

    constructor ()
      ensures Valid() && cells == EmptyBoard
    {
      cells := EmptyBoard;
    }

    /** getBoard: the current cells. */
    function GetBoard(): (b: seq<Cell>)
      reads this
      requires Valid()
      ensures |b| == 9
    {
      cells
    }

    /** reset: every cell empty again. */
    method Reset()
      modifies this
      ensures Valid() && cells == EmptyBoard
    {
      cells := EmptyBoard;
    }

    /** setMark: writes `mark` at `index` when that cell exists and is empty,
        and reports whether it did. An index off the board reads as no cell,
        which is not the empty string, so it is refused like an occupied one. */
    method SetMark(index: int, mark: Mark) returns (ok: bool)
      requires Valid()
      modifies this
      ensures Valid()
      ensures ok <==> 0 <= index < 9 && old(cells)[index] == Empty
      ensures ok ==> cells == old(cells)[index := Marked(mark)]
      ensures !ok ==> cells == old(cells)
      ensures forall i :: 0 <= i < 9 && old(cells)[i] != Empty ==> cells[i] == old(cells)[i]
    {
      if 0 <= index < |cells| && cells[index] == Empty {
        cells := cells[index := Marked(mark)];
        return true;
      }
      return false;
    }
  }
}
