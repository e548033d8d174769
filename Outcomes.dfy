/** Optional values and the error outcomes that stand for the exceptions the
    game code throws. */
module Outcomes {

  datatype Option<T> = None | Some(value: T)

  /** Why an operation failed. */
  datatype PokerError =
    | SeatsFull          // newPlayer with every seat taken
    | NotEnoughPlayers   // newGame before every seat is taken
    | NotEnoughCredit    // Player.bid above the player's credit
    | TooManyDiscards    // draw with more than four indices
    | CardIndexTooHigh   // draw with an index above four
    | NoSuchPlayer       // players.get(-1) after an unknown id
    | IndexOutOfBounds   // ArrayList.remove with a position outside the list
    | EmptyDeck          // Deck.dealCard on an empty deck
    | NoPlayers          // ranking.get(0) on an empty ranking

  /** The effect of a void method that may throw. */
  datatype Outcome = Ok | Err(error: PokerError)
}
