# Tic-tac-toe rules engine, modelled in Dafny

This project models the game engine of a browser tic-tac-toe game. The engine has three parts:

- the **Gameboard**: nine cells, each empty or holding X or O;
- the **Player** factory: a name paired with a mark;
- the **GameController**: the two players, the index of the player to move, and a game-over flag.

`start` sets up a game. `playTurn(index)` places the current player's mark. It then checks the
eight fixed lines for a win, then checks for a draw, and otherwise passes the turn to the other
player.

Files and modules:

- `marks.dfy`, module `Marks`: the cell contents (`Empty | X | O`) and the `Player` record.
  The `Player` factory is the datatype's constructor.
- `board.dfy`, module `Board`: `Place`, the pure effect of `setMark` on a snapshot, and `Count`
  of a mark on a snapshot. It also holds the class `Gameboard` over an `array<Mark>` of length 9.
  `SetMark` writes one cell in place. `Reset` installs a fresh empty array, as script.js
  rebinds its board to a new array.
- `rules.dfy`, module `Rules`: the eight win patterns, `CheckWinner` (the `some` over the
  patterns) and `CheckDraw` (the `every` over the cells). Beside them is an independent,
  geometric definition of three in a row.
- `game.dfy`, module `Game`: the pure state machine. `State` is the board plus the controller's
  variables. `Play` is one `playTurn` call. `Consistent` is the invariant of every reachable
  state. Lemmas cover game over, turn parity, the winner and the nine-move draw.
- `controller.dfy`, module `Controller`: the class `GameController`, whose fields are updated in
  place. Its `PlayTurn` and `Start` are proved to produce exactly the states `Play` and
  `NewGame` describe, and they keep the invariant.

## Model

| member | source | states |
|---|---|---|
| `Board.EmptyBoard` | script.js:3 | a fresh board has exactly nine cells, all empty |
| `Board.Place` | script.js:7-13 | the write succeeds exactly when the index is in range and that cell is empty; on success that cell holds the mark and the other cells are unchanged; otherwise the board is unchanged, out-of-range indices included |
| `Board.CountAfterUpdate` | script.js:9 | writing one cell removes one from the count of the mark it held and adds one to the count of the new mark |
| `Board.Gameboard.constructor` | script.js:3 | the board object starts with nine empty cells |
| `Board.Gameboard.GetBoard` | script.js:5 | the snapshot always has exactly nine cells |
| `Board.Gameboard.SetMark` | script.js:7-13 | the returned flag and the new cells are those `Place` describes, and the board keeps nine cells |
| `Board.Gameboard.Reset` | script.js:15-17 | afterwards the cells are a fresh array of nine empty cells |
| `Rules.AnyLine` | script.js:56-60 | true exactly when some pattern of the list has three equal non-empty cells |
| `Rules.CheckWinner` | script.js:49-61 | true exactly when one of the eight fixed patterns has three equal non-empty cells |
| `Rules.CheckDraw` | script.js:63-65 | true exactly when no cell is empty |
| `Rules.WinPatternsAreGridLines` | script.js:50-54 | the eight patterns find a win exactly when some row, column or diagonal of the 3x3 grid holds three equal marks |
| `Rules.NewLineIsMovers` | script.js:71-74 | when a board without a line gets one mark in an empty cell, every line of the new board passes through that cell and carries that mark |
| `Game.Toggle` | script.js:45-47 | the new index is 0 or 1, and it is the other index whenever the old one was 0 or 1 |
| `Game.NewGame` | script.js:33-41 | the new game has X for the first name and O for the second, X to move, the game not over and all nine cells empty |
| `Game.Play` | script.js:67-84 | a finished game or an occupied or out-of-range cell gives `Rejected` with nothing changed; otherwise only the chosen cell gets the mover's mark; it is a win (the mover, who keeps the turn) exactly when the grid then has three in a row; it is a draw exactly when there is no such line and no empty cell; otherwise the turn passes to the other player, who is reported; the game is over afterwards exactly when it was already or this turn won or drew |
| `Game.NewGameConsistent` | script.js:33-41 | a newly started game satisfies the invariant |
| `Game.PlayPreservesConsistent` | script.js:67-84 | every turn keeps the invariant: X first and O second; X has placed as many marks as O or one more, matching whose turn it is; the game is over exactly when the board has a line or is full |
| `Game.FinishedGameRejects` | script.js:68 | once the game is over a turn returns `Rejected` and changes neither the board nor the turn nor the flag |
| `Game.TurnParity` | script.js:78-80 | during play the X count minus the O count is 0 or 1, and it is X's turn exactly when the counts are equal |
| `Game.WinnerOwnsEveryLine` | script.js:72-74 | when a turn reports a win, every line on the board carries the reported player's mark |
| `Game.MarksAlternate` | script.js:78-80 | after a turn that continues the game, the next accepted turn places the other mark |
| `Game.Run` | script.js:67-84 | a run of turns gives one outcome per turn and leaves a started state |
| `Game.RunStep` | script.js:67-84 | the first outcome of a run is that of its first turn, and the later outcomes are those of the rest of the run from the state that turn leaves |
| `Game.AcceptedTurnFillsOneCell` | script.js:71 | an accepted turn lowers the number of empty cells by one |
| `Game.QuietTurn` | script.js:72-80 | an accepted turn without a win draws when it fills the last empty cell; otherwise it continues and leaves a consistent game still in play |
| `Game.FillingWithoutLineIsDraw` | script.js:72-80 | if every turn is accepted, none wins and the turns fill all empty cells, every turn but the last continues and the last is a draw |
| `Game.NineMovesWithoutLineDraw` | script.js:63-77 | nine accepted turns of a new game without a win end in a draw on the ninth |
| `Controller.GameController.constructor` | script.js:28-31 | a controller starts with no players, the game not over, and a fresh board of nine empty cells |
| `Controller.GameController.Start` | script.js:33-41 | afterwards the state is `NewGame(name1, name2)`, whatever the previous game's outcome, over a fresh empty board, and the invariant holds |
| `Controller.GameController.GetCurrentPlayer` | script.js:43 | returns one of the two players; during play it is X's player exactly when both have placed the same number of marks |
| `Controller.GameController.SwitchPlayer` | script.js:45-47 | the turn index toggles as `Toggle` says; players and the game-over flag are unchanged |
| `Controller.GameController.PlayTurn` | script.js:67-84 | the outcome and the new board, players, turn index and flag are those `Play` gives for the old state, and the invariant is kept |

## Left out

- The display controller (script.js:89-143) is not part of this model. It covers DOM rendering, click and button wiring, status text, the default names "Player 1"/"Player 2" and the call to `init` at load time.
- `getBoard` returns the live array, so a caller could alias it and write to it. The model returns a read-only snapshot (`seq<Mark>`).
- Calling `playTurn` before `start` throws a TypeError when script.js reads the mark of an undefined player. Calling `getCurrentPlayer` before `start` returns `undefined` and throws nothing. The model gives both the precondition `HasPlayers()`, so neither call is modelled before `start`.
- Before `start`, the turn index and game-over flag of script.js are `undefined`. The constructor sets them to 0 and false. Every exported operation that reads them requires `HasPlayers()`. `SwitchPlayer` does not, but script.js keeps `switchPlayer` private (script.js:86) and calls it only from `playTurn` after `start`, so the difference is never observed.
- Indices are integers. Non-integer keys such as `"1"` or `1.5`, which script.js would use as property names, are not modelled.
- Marks are `Empty`, `X` or `O`. Arbitrary values passed to `setMark` are not modelled. `SetMark` does accept `Empty`, as script.js accepts `''`.
