/** Cell contents and players of the tic-tac-toe engine. */
module Marks {

  /** What a board cell holds: nothing yet (the empty string `''` in script.js), or a player's symbol. */
  datatype Mark = Empty | X | O

  /** A player: a display name paired with the symbol the player places. Built by the `Player` factory. */
  datatype Player = Player(name: string, mark: Mark)

  /** The symbol of the other player; the two symbols alternate as turns pass. */
  function Opponent(m: Mark): (r: Mark)
    requires m != Empty
    ensures r != Empty && r != m
  {
    if m == X then O else X
  }
}
