/** The turn sequencer: two players with fixed marks, whose turn it is, and
    whether the game is over. It places marks through the shared Board and
    reads the board's queries to decide when the game ends. */
module GameController {
  import opened Gameboard

  /** A player: a name (any text) and a mark. */
  datatype Player = Player(name: string, mark: Mark)

  /** Player 1 plays X, player 2 plays O. */
  function MarkOf(isP1: bool): Mark
  {
    if isP1 then X else O
  }

  /** The mark whose turn it is by counting: X moves first, so X is due
      exactly when both marks have been placed equally often. */
  function NextMark(b: seq<Cell>): Mark
  {
    if Count(b, Marked(X)) == Count(b, Marked(O)) then X else O
  }

  /** What every board reached by play from the empty board satisfies, with
      `isP1` the current player and `over` the game-over flag:
      X is never behind O and never more than one ahead; while the game runs
      the current player is the one due to move, nobody holds a line and the
      board is not full; once it is over the current player is the one who
      moved last, and either that player alone holds a line or the board is
      full with no line. */
  ghost predicate PlayInvariant(b: seq<Cell>, isP1: bool, over: bool)
  {
    |b| == 9 &&
    (Count(b, Marked(X)) == Count(b, Marked(O)) || Count(b, Marked(X)) == Count(b, Marked(O)) + 1) &&
    (!over ==> MarkOf(isP1) == NextMark(b) && !HasLine(b, X) && !HasLine(b, O) && !Full(b)) &&
    (over ==> MarkOf(isP1) == Other(NextMark(b)) &&
              ((HasLine(b, MarkOf(isP1)) && !HasLine(b, Other(MarkOf(isP1)))) ||
               (Full(b) && !HasLine(b, X) && !HasLine(b, O))))
  }

  /** The game before the first move. */
  lemma StartInvariant()
    ensures PlayInvariant(EmptyBoard, true, false)
    ensures Count(EmptyBoard, Marked(X)) == 0 && Count(EmptyBoard, Marked(O)) == 0
  {
    CountAbsent(EmptyBoard, Marked(X));
    CountAbsent(EmptyBoard, Marked(O));
    NoLineBeforeThreeMarks(EmptyBoard, X);
    NoLineBeforeThreeMarks(EmptyBoard, O);
    assert EmptyBoard[0] == Empty;
  }

  /** A mark placed at `i` can only complete lines through `i`, so every line
      of another mark after the move was there before it. */
  lemma {:induction false} NoNewLineForOther(b: seq<Cell>, i: nat, m: Mark, o: Mark)
    requires i < |b| && b[i] == Empty && o != m
    requires HasLine(b[i := Marked(m)], o)
    ensures HasLine(b, o)
  {
    var b' := b[i := Marked(m)];
    var k :| 0 <= k < |WinPatterns| && Uniform(b', WinPatterns[k], o);
    assert Uniform(b, WinPatterns[k], o);
  }

  /** Placing the current player's mark in a running game: one more of that
      mark, the same number of the other, the other mark due next by count,
      and no line of the other mark. */
  lemma {:induction false} PlaceFacts(b: seq<Cell>, isP1: bool, i: int)
    requires PlayInvariant(b, isP1, false)
    requires 0 <= i < 9 && b[i] == Empty
    ensures var m := MarkOf(isP1);
            var b' := b[i := Marked(m)];
            Count(b', Marked(m)) == Count(b, Marked(m)) + 1 &&
            Count(b', Marked(Other(m))) == Count(b, Marked(Other(m))) &&
            NextMark(b') == Other(m) &&
            !HasLine(b', Other(m))
  {
    var m := MarkOf(isP1);
    var b' := b[i := Marked(m)];
    CountUpdate(b, i, Marked(m), Marked(m));
    CountUpdate(b, i, Marked(m), Marked(Other(m)));
    if HasLine(b', Other(m)) {
      NoNewLineForOther(b, i, m, Other(m));
    }
  }

  /** One successful placement by the current player of a running game keeps
      PlayInvariant, with the game ending exactly on a win or a tie and the
      turn passing only when it does not end; the mover is the only possible
      winner and exactly one more cell is filled. */
  lemma {:induction false} PlaceKeepsInvariant(b: seq<Cell>, isP1: bool, i: int)
    requires PlayInvariant(b, isP1, false)
    requires 0 <= i < 9 && b[i] == Empty
    ensures var b' := b[i := Marked(MarkOf(isP1))];
            var over := CheckWin(b').Some? || CheckTie(b');
            PlayInvariant(b', if over then isP1 else !isP1, over) &&
            (CheckWin(b').Some? ==> CheckWin(b') == Some(MarkOf(isP1))) &&
            Count(b', Marked(X)) + Count(b', Marked(O)) == Count(b, Marked(X)) + Count(b, Marked(O)) + 1
  {
    var m := MarkOf(isP1);
    var b' := b[i := Marked(m)];
    PlaceFacts(b, isP1, i);
    var w := CheckWin(b');
    if w.Some? {
      assert HasLine(b', w.value);
      assert w.value != Other(m);
      assert w == Some(m);
    } else if CheckTie(b') {
      assert Full(b') && !HasLine(b', m);
    } else {
      assert !Full(b');
    }
    if isP1 {
      assert m == X && Other(m) == O;
    } else {
      assert m == O && Other(m) == X;
    }
  }

  /** On a board reached by play, checkWin names a mark exactly when that
      mark holds a line, and a winner only exists once the game is over and
      is then the current player's mark. */
  lemma WinnerOfPlayedBoard(b: seq<Cell>, isP1: bool, over: bool, m: Mark)
    requires PlayInvariant(b, isP1, over)
    ensures CheckWin(b) == Some(m) <==> HasLine(b, m)
    ensures CheckWin(b).Some? ==> over && CheckWin(b) == Some(MarkOf(isP1))
  {
  }

  /** A tie on a board reached by play comes after nine moves, five by X and
      four by O, and the last of them was player 1's. */
  lemma TieAfterNineMoves(b: seq<Cell>, isP1: bool, over: bool)
    requires PlayInvariant(b, isP1, over)
    requires CheckTie(b)
    ensures over && isP1
    ensures Count(b, Marked(X)) == 5 && Count(b, Marked(O)) == 4
  {
    FullCount(b);
    CountTotal(b);
  }

  /** The game controller: player 1 and player 2 (absent until the first
      start), whether player 1 is the current player, the game-over flag,
      and the board it plays on. `moves` counts the successful placements
      since the last start. */
  class Controller {
    const board: Board
    var player1: Option<Player>
    var player2: Option<Player>
    var currentIsP1: bool
    var gameOver: bool
    ghost var moves: nat

    ghost predicate Started()
      reads this
    {
      player1.Some?
    }

    ghost predicate Valid()
      reads this, board
    {
      board.Valid() &&
      player1.Some? == player2.Some? &&
      (!Started() ==> !gameOver) &&
      (Started() ==>
         player1.value.mark == X && player2.value.mark == O &&
         PlayInvariant(board.cells, currentIsP1, gameOver) &&
         Count(board.cells, Marked(X)) + Count(board.cells, Marked(O)) == moves)
    }

    /** The controller as created, before any start: no players and the game
        not over. */
    constructor (board: Board)
      requires board.Valid()
      ensures Valid() && this.board == board && !Started() && !gameOver
    {
      this.board := board;
      player1, player2 := None, None;
      currentIsP1, gameOver := false, false;
      moves := 0;
    }

    /** start: player 1 gets X and player 2 gets O, player 1 moves first,
        the game is not over and the board is emptied. */
    method Start(name1: string, name2: string)
      requires Valid()
      modifies this, board
      ensures Valid() && Started()
      ensures player1 == Some(Player(name1, X)) && player2 == Some(Player(name2, O))
      ensures currentIsP1 && !gameOver
      ensures board.cells == EmptyBoard && moves == 0
    {
      player1 := Some(Player(name1, X));
      player2 := Some(Player(name2, O));
      currentIsP1 := true;
      gameOver := false;
      board.Reset();
      moves := 0;
      StartInvariant();
    }

    /** playTurn: ignored once the game is over or when the cell cannot be
        taken; otherwise the current player's mark is placed, and the game
        ends on a win or a tie (the mover stays current) or else the turn
        passes to the other player. */
    method PlayTurn(index: int)
      requires Valid() && Started()
      modifies this, board
      ensures Valid() && Started()
      ensures player1 == old(player1) && player2 == old(player2)
      ensures old(gameOver) ==>
                gameOver && currentIsP1 == old(currentIsP1) &&
                board.cells == old(board.cells) && moves == old(moves)
      ensures !old(gameOver) && !(0 <= index < 9 && old(board.cells)[index] == Empty) ==>
                !gameOver && currentIsP1 == old(currentIsP1) &&
                board.cells == old(board.cells) && moves == old(moves)
      ensures !old(gameOver) && 0 <= index < 9 && old(board.cells)[index] == Empty ==>
                board.cells == old(board.cells)[index := Marked(MarkOf(old(currentIsP1)))] &&
                moves == old(moves) + 1 &&
                (gameOver <==> CheckWin(board.cells).Some? || CheckTie(board.cells)) &&
                currentIsP1 == (if gameOver then old(currentIsP1) else !old(currentIsP1))
    {
      if gameOver {
        return;
      }
      var mark := if currentIsP1 then player1.value.mark else player2.value.mark;
      var placed := board.SetMark(index, mark);
      if placed {
        PlaceKeepsInvariant(old(board.cells), currentIsP1, index);
        moves := moves + 1;
        var winner := CheckWin(board.cells);
        if winner.Some? {
          gameOver := true;
          return;
        }
        if CheckTie(board.cells) {
          gameOver := true;
          return;
        }
        currentIsP1 := !currentIsP1;
      }
    }

    /** getCurrentPlayer: absent before the first start; afterwards the
        player whose mark is due, and once the game is won, the winner. */
    function GetCurrentPlayer(): (p: Option<Player>)
      reads this, board
      requires Valid()
      ensures p.Some? <==> Started()
      ensures p.Some? ==> p == player1 || p == player2
      ensures p.Some? ==> p.value.mark == MarkOf(currentIsP1)
      ensures p.Some? && !gameOver ==> p.value.mark == NextMark(board.cells)
      ensures p.Some? && CheckWin(board.cells).Some? ==> CheckWin(board.cells) == Some(p.value.mark)
    {
      if player1.None? then None
      else
        WinnerOfPlayedBoard(board.cells, currentIsP1, gameOver, X);
        if currentIsP1 then player1 else player2
    }

    /** isGameOver: the flag, which after a start is set exactly when the
        board shows a winner or a tie. */
    function IsGameOver(): (r: bool)
      reads this, board
      requires Valid()
      ensures r ==> Started()
      ensures Started() ==> (r <==> CheckWin(board.cells).Some? || CheckTie(board.cells))
    {
      gameOver
    }
  }

  /** Three distinct cells holding `m` make at least three of its marks. */
  lemma ThreeCellsCount(b: seq<Cell>, l: Line, m: Mark)
    requires Uniform(b, l, m) && l.a != l.b && l.b != l.c && l.a != l.c
    ensures Count(b, Marked(m)) >= 3
  {
    var c := Marked(m);
    var b1 := b[l.a := Empty];
    var b2 := b1[l.b := Empty];
    var b3 := b2[l.c := Empty];
    CountUpdate(b, l.a, Empty, c);
    CountUpdate(b1, l.b, Empty, c);
    CountUpdate(b2, l.c, Empty, c);
  }

  /** A mark placed fewer than three times holds no line, so no game is won
      before its fifth move. */
  lemma NoLineBeforeThreeMarks(b: seq<Cell>, m: Mark)
    requires Count(b, Marked(m)) < 3
    ensures !HasLine(b, m)
  {
    if HasLine(b, m) {
      var k :| 0 <= k < |WinPatterns| && Uniform(b, WinPatterns[k], m);
      ThreeCellsCount(b, WinPatterns[k], m);
    }
  }

  /** Before either mark has three cells and while a cell is free, neither
      checkWin nor checkTie ends the game. */
  lemma EarlyBoardContinues(b: seq<Cell>, free: nat)
    requires |b| == 9 && free < 9 && b[free] == Empty
    requires Count(b, Marked(X)) < 3 && Count(b, Marked(O)) < 3
    ensures CheckWin(b) == None && !CheckTie(b)
  {
    NoLineBeforeThreeMarks(b, X);
    NoLineBeforeThreeMarks(b, O);
  }

  /** A uniform line makes checkWin report a winner. */
  lemma LineEndsGame(b: seq<Cell>, k: nat, m: Mark)
    requires |b| == 9 && k < |WinPatterns| && Uniform(b, WinPatterns[k], m)
    ensures CheckWin(b).Some?
  {
  }

  /** Two moves of a running game that leave both marks below three cells
      and a cell free keep it running with the same player to move. */
  method TwoEarlyMoves(game: Controller, first: nat, second: nat, free: nat)
    requires game.Valid() && game.Started() && !game.gameOver
    requires first < 9 && second < 9 && free < 9
    requires first != second && first != free && second != free
    requires game.board.cells[first] == Empty && game.board.cells[second] == Empty
    requires game.board.cells[free] == Empty
    requires game.moves + 2 <= 4
    modifies game, game.board
    ensures game.Valid() && game.Started() && !game.gameOver
    ensures game.currentIsP1 == old(game.currentIsP1) && game.moves == old(game.moves) + 2
    ensures game.board.cells ==
            old(game.board.cells)[first := Marked(MarkOf(old(game.currentIsP1)))]
                                 [second := Marked(Other(MarkOf(old(game.currentIsP1))))]
  {
    var board := game.board;
    game.PlayTurn(first);
    EarlyBoardContinues(board.cells, free);
    game.PlayTurn(second);
    EarlyBoardContinues(board.cells, free);
  }

  /** From a fresh start, moves 0, 1, 3, 4 keep the game running and hand
      the turn back and forth, leaving X on 0 and 3 and player 1 to move. */
  method OpeningMoves(game: Controller)
    requires game.Valid() && game.Started()
    requires game.board.cells == EmptyBoard && game.currentIsP1 && !game.gameOver
    requires game.moves == 0
    modifies game, game.board
    ensures game.Valid() && game.Started() && !game.gameOver && game.currentIsP1
    ensures game.board.cells[0] == Marked(X) && game.board.cells[3] == Marked(X)
    ensures game.board.cells[6] == Empty
  {
    TwoEarlyMoves(game, 0, 1, 6);
    TwoEarlyMoves(game, 3, 4, 6);
  }

  /** X takes the left column with moves 0, 1, 3, 4, 6, the game ends with X
      still current, and a further move is ignored. */
  method ColumnWinScenario()
  {
    var board := new Board();
    var game := new Controller(board);
    game.Start("Ann", "Bo");
    OpeningMoves(game);
    game.PlayTurn(6);
    LineEndsGame(board.cells, 3, X);
    assert game.gameOver && game.currentIsP1;
    WinnerOfPlayedBoard(board.cells, game.currentIsP1, game.gameOver, X);
    assert CheckWin(board.cells) == Some(X);
    ghost var won := board.cells;
    game.PlayTurn(8);
    assert board.cells == won && game.gameOver && game.currentIsP1;
  }

  /** X O X / X O O / O X X: every cell taken and no line, so a tie and no
      winner. */
  lemma DrawnBoard()
    ensures var x, o := Marked(X), Marked(O);
            var b := [x, o, x, x, o, o, o, x, x];
            CheckTie(b) && CheckWin(b) == None
  {
    var x, o := Marked(X), Marked(O);
    var b := [x, o, x, x, o, o, o, x, x];
    forall k | 0 <= k < |WinPatterns| ensures !Uniform(b, WinPatterns[k], X) && !Uniform(b, WinPatterns[k], O) {
    }
  }
}
