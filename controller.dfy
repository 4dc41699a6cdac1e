/** The controller object: its variables are updated in place by `start` and `playTurn`. */
module Controller {
  import opened Marks
  import opened Board
  import opened Rules
  import opened Game

  class GameController {
    const board: Gameboard
    var players: seq<Player>
    var currentPlayerIndex: int
    var gameOver: bool

    /** The turn index names a player slot; once started, the state keeps the game invariant. */
    ghost predicate Valid()
      reads this, board, board.cells
    {
      board.Valid() &&
      (currentPlayerIndex == 0 || currentPlayerIndex == 1) &&
      (|players| != 0 ==> Consistent(State()))
    }

    /** `start` has been called at least once. */
    predicate HasPlayers()
      reads this
    {
      |players| == 2
    }

    /** The controller's variables together with the board it owns. */
    function State(): State
      reads this, board, board.cells
      requires board.Valid()
    {
      Game.State(board.GetBoard(), players, currentPlayerIndex, gameOver)
    }

    /** A controller over a fresh, empty board, before any game has been started. */
    constructor ()
      ensures Valid() && !HasPlayers() && fresh(board) && fresh(board.cells)
      ensures board.GetBoard() == EmptyBoard() && players == [] && !gameOver
    {
      board := new Gameboard();
      players := [];
      currentPlayerIndex := 0;
      gameOver := false;
    }

    /** Sets up a new game: X for the first name, O for the second, empty board, X to move. */
    method Start(name1: string, name2: string)
      modifies this, board
      ensures Valid() && HasPlayers() && fresh(board.cells)
      ensures State() == NewGame(name1, name2)
    {
      board.Reset();
      players := [Player(name1, X), Player(name2, O)];
      currentPlayerIndex := 0;
      gameOver := false;
      assert State() == NewGame(name1, name2);
      NewGameConsistent(name1, name2);
    }

    /**
     * The player whose turn it is; while the game is in play that is X exactly when both
     * players have placed the same number of marks.
     */
    function GetCurrentPlayer(): (p: Player)
      reads this, board, board.cells
      requires Valid() && HasPlayers()
      ensures p in players
      ensures !gameOver ==> (p.mark == X <==> Count(board.GetBoard(), X) == Count(board.GetBoard(), O))
    {
      TurnParity(State());
      players[currentPlayerIndex]
    }

    /** Passes the turn to the other player. */
    method SwitchPlayer()
      modifies this
      ensures currentPlayerIndex == Toggle(old(currentPlayerIndex))
      ensures players == old(players) && gameOver == old(gameOver)
    {
      currentPlayerIndex := if currentPlayerIndex == 0 then 1 else 0;
    }

    /** Plays the current player's mark at `index`; the outcome and new state are those of `Play`. */
    method PlayTurn(index: int) returns (r: Outcome)
      requires Valid() && HasPlayers()
      modifies this, board.cells
      ensures Valid() && HasPlayers()
      ensures (State(), r) == Play(old(State()), index)
    {
      if gameOver {
        return Rejected;
      }
      ghost var before := State();
      PlayPreservesConsistent(before, index);
      var currentPlayer := GetCurrentPlayer();
      var placed := board.SetMark(index, currentPlayer.mark);
      if placed {
        var b := board.GetBoard();
        if CheckWinner(b) {
          gameOver := true;
          r := Win(currentPlayer);
        } else if CheckDraw(b) {
          gameOver := true;
          r := Draw;
        } else {
          SwitchPlayer();
          r := Continue(GetCurrentPlayer());
        }
      } else {
        r := Rejected;
      }
    }
  }
}
