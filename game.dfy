/** The game controller: turn order, game-over state and the outcome of each turn. */
module Game {
  import opened Marks
  import opened Board
  import opened Rules

  /** What `playTurn` returns; `Rejected` stands for the plain `false` that script.js returns. */
  datatype Outcome = Rejected | Win(player: Player) | Draw | Continue(nextPlayer: Player)

  /** A snapshot of everything a turn reads and writes: the board and the controller's variables. */
  datatype State = State(board: seq<Mark>, players: seq<Player>, current: int, gameOver: bool)

  /** The controller has been started: two players exist and the turn index names one of them. */
  predicate Started(s: State) {
    |s.board| == Size && |s.players| == 2 && (s.current == 0 || s.current == 1)
  }

  /** `switchPlayer` on the index: 0 becomes 1 and anything else becomes 0. */
  function Toggle(i: int): (j: int)
    ensures j == 0 || j == 1
    ensures (i == 0 || i == 1) ==> j == 1 - i
  {
    if i == 0 then 1 else 0
  }

  /** The state `start(name1, name2)` leaves behind, whatever came before. */
  function NewGame(name1: string, name2: string): (s: State)
    ensures Started(s) && !s.gameOver && s.current == 0
    ensures s.players[0] == Player(name1, X) && s.players[1] == Player(name2, O)
    ensures Count(s.board, Empty) == Size
  {
    State(EmptyBoard(), [Player(name1, X), Player(name2, O)], 0, false)
  }

  /**
   * One call of `playTurn(index)`: refused once the game is over or when the cell cannot be
   * marked; otherwise the current player's mark is placed, then a win is checked, then a draw,
   * and only if neither holds does the turn pass to the other player.
   */
  function Play(s: State, index: int): (r: (State, Outcome))
    requires Started(s)
    ensures Started(r.0) && r.0.players == s.players
    ensures r.1 == Rejected <==> s.gameOver || !(0 <= index < Size && s.board[index] == Empty)
    ensures r.1 == Rejected ==> r.0 == s
    ensures r.1 != Rejected ==>
              r.0.board[index] == s.players[s.current].mark &&
              forall j :: 0 <= j < Size && j != index ==> r.0.board[j] == s.board[j]
    ensures r.1.Win? <==> r.1 != Rejected && HasThreeInARow(r.0.board)
    ensures r.1.Win? ==> r.1.player == s.players[s.current] && r.0.current == s.current
    ensures r.1.Draw? <==>
              r.1 != Rejected && !HasThreeInARow(r.0.board) && Count(r.0.board, Empty) == 0
    ensures r.1.Draw? ==> r.0.current == s.current
    ensures r.1.Continue? ==>
              r.0.current == 1 - s.current && r.1.nextPlayer == s.players[r.0.current]
    ensures r.0.gameOver <==> s.gameOver || r.1.Win? || r.1.Draw?
  {
    if s.gameOver then (s, Rejected)
    else
      var player := s.players[s.current];
      var (placed, b) := Place(s.board, index, player.mark);
      if !placed then (s, Rejected)
      else
        WinPatternsAreGridLines(b);
        if CheckWinner(b) then (s.(board := b, gameOver := true), Win(player))
        else if CheckDraw(b) then (s.(board := b, gameOver := true), Draw)
        else
          var next := Toggle(s.current);
          (s.(board := b, current := next), Continue(s.players[next]))
  }

  /**
   * What holds of every state reachable from `start`: X is the first player and O the second;
   * X has placed as many marks as O, or one more, matching whose turn it is (the last mover
   * keeps the turn once the game is over); and the game is over exactly when the board has a
   * line or is full.
   */
  predicate Consistent(s: State) {
    Started(s) &&
    s.players[0].mark == X && s.players[1].mark == O &&
    Count(s.board, X) - Count(s.board, O) == (if s.gameOver then 1 - s.current else s.current) &&
    (s.gameOver <==> CheckWinner(s.board) || CheckDraw(s.board))
  }

  /** A new game satisfies the invariant. */
  lemma NewGameConsistent(name1: string, name2: string)
    ensures Consistent(NewGame(name1, name2))
  {
  }

  /** Every turn, accepted or not, preserves the invariant. */
  lemma PlayPreservesConsistent(s: State, index: int)
    requires Consistent(s)
    ensures Consistent(Play(s, index).0)
  {
    var (s', o) := Play(s, index);
    if o != Rejected {
      var m := s.players[s.current].mark;
      assert s'.board == s.board[index := m];
      CountAfterUpdate(s.board, index, m, X);
      CountAfterUpdate(s.board, index, m, O);
      WinPatternsAreGridLines(s'.board);
    }
  }

  /** Once the game is over, a turn is refused and changes nothing. */
  lemma FinishedGameRejects(s: State, index: int)
    requires Started(s) && s.gameOver
    ensures Play(s, index) == (s, Rejected)
  {
  }

  /**
   * In a consistent game still in play, X and O counts differ by at most one, and it is X's turn
   * exactly when the counts are equal.
   */
  lemma TurnParity(s: State)
    requires Consistent(s)
    ensures !s.gameOver ==> Count(s.board, X) - Count(s.board, O) in {0, 1}
    ensures !s.gameOver ==>
              (s.players[s.current].mark == X <==> Count(s.board, X) == Count(s.board, O))
  {
  }

  /** A reported win belongs to the player who just moved: every line on the board is theirs. */
  lemma WinnerOwnsEveryLine(s: State, index: int)
    requires Consistent(s)
    requires Play(s, index).1.Win?
    ensures forall k :: 0 <= k < |WinPatterns| && IsLine(Play(s, index).0.board, WinPatterns[k]) ==>
              Play(s, index).0.board[WinPatterns[k].0] == Play(s, index).1.player.mark
  {
  }

  /** Two accepted turns in a row place the two different marks. */
  lemma MarksAlternate(s: State, i: int, j: int)
    requires Consistent(s)
    requires Play(s, i).1.Continue?
    requires Play(Play(s, i).0, j).1 != Rejected
    ensures Play(Play(s, i).0, j).0.board[j] == Opponent(Play(s, i).0.board[i])
  {
  }

  /** The outcomes of a sequence of `playTurn` calls, and the state after the last one. */
  function Run(s: State, moves: seq<int>): (r: (State, seq<Outcome>))
    requires Started(s)
    ensures Started(r.0) && |r.1| == |moves|
    decreases |moves|
  {
    if moves == [] then (s, [])
    else
      var (s1, o) := Play(s, moves[0]);
      var (s2, os) := Run(s1, moves[1..]);
      (s2, [o] + os)
  }

  /** An accepted turn fills exactly one empty cell. */
  lemma AcceptedTurnFillsOneCell(s: State, index: int)
    requires Consistent(s)
    requires Play(s, index).1 != Rejected
    ensures Count(Play(s, index).0.board, Empty) == Count(s.board, Empty) - 1
  {
    var m := s.players[s.current].mark;
    assert Play(s, index).0.board == s.board[index := m];
    CountAfterUpdate(s.board, index, m, Empty);
  }

  /** An accepted turn without a win continues the game while an empty cell remains, else draws. */
  lemma QuietTurn(s: State, index: int)
    requires Consistent(s)
    requires Play(s, index).1 != Rejected && !Play(s, index).1.Win?
    ensures Count(Play(s, index).0.board, Empty) == Count(s.board, Empty) - 1
    ensures Count(s.board, Empty) == 1 ==> Play(s, index).1 == Draw
    ensures Count(s.board, Empty) > 1 ==>
              Play(s, index).1.Continue? && Consistent(Play(s, index).0) && !Play(s, index).0.gameOver
  {
    AcceptedTurnFillsOneCell(s, index);
    PlayPreservesConsistent(s, index);
  }

  /** The first outcome of a run is that of its first turn; the others are those of the rest of the run. */
  lemma RunStep(s: State, moves: seq<int>)
    requires Started(s) && moves != []
    ensures Run(s, moves).1[0] == Play(s, moves[0]).1
    ensures forall k :: 0 < k < |moves| ==>
              Run(s, moves).1[k] == Run(Play(s, moves[0]).0, moves[1..]).1[k - 1]
  {
    var (s1, o) := Play(s, moves[0]);
    assert Run(s, moves).1 == [o] + Run(s1, moves[1..]).1;
  }

  /**
   * From a game in play, if as many turns as there are empty cells are all accepted and none
   * wins, every turn but the last continues the game and the last one is a draw.
   */
  lemma {:induction false} FillingWithoutLineIsDraw(s: State, moves: seq<int>)
    requires Consistent(s) && !s.gameOver
    requires |moves| == Count(s.board, Empty)
    requires forall k :: 0 <= k < |moves| ==> Run(s, moves).1[k] != Rejected && !Run(s, moves).1[k].Win?
    ensures forall k :: 0 <= k < |moves| - 1 ==> Run(s, moves).1[k].Continue?
    ensures Run(s, moves).1[|moves| - 1] == Draw
    decreases |moves|
  {
    assert moves != [];
    var outcomes := Run(s, moves).1;
    var s1 := Play(s, moves[0]).0;
    var rest := Run(s1, moves[1..]).1;
    RunStep(s, moves);
    assert outcomes[0] != Rejected && !outcomes[0].Win?;
    QuietTurn(s, moves[0]);
    if |moves| > 1 {
      assert forall k :: 0 <= k < |rest| ==> rest[k] == outcomes[k + 1];
      FillingWithoutLineIsDraw(s1, moves[1..]);
    }
  }

  /** Nine accepted turns of a new game without a line end in a draw on the ninth. */
  lemma NineMovesWithoutLineDraw(name1: string, name2: string, moves: seq<int>)
    requires |moves| == Size
    requires forall k :: 0 <= k < |moves| ==>
               Run(NewGame(name1, name2), moves).1[k] != Rejected &&
               !Run(NewGame(name1, name2), moves).1[k].Win?
    ensures Run(NewGame(name1, name2), moves).1[Size - 1] == Draw
  {
    NewGameConsistent(name1, name2);
    FillingWithoutLineIsDraw(NewGame(name1, name2), moves);
  }
}
