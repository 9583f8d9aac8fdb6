/** What runGame (game/uno_game.cpp) does once a set is over: start another set,
    or declare the game won by a player whose cumulative score reached
    WINNING_SCORE. runSet_ reports a set stopped by the turn limit with the
    winner -1. */
module GameLoop {
  import opened GameState

  datatype Step = NextSet | GameWon(winner: int, score: int) | OutOfRangeThrown

  /** As written: the `continue` taken for winner -1 jumps to the condition of
      the do-while, which reads playerInfo.at(winner) and so throws
      std::out_of_range instead of starting another set. */
  function AfterSetAsWritten(winner: int, scores: seq<int>): Step {
    if !(0 <= winner < |scores|) then OutOfRangeThrown
    else if scores[winner] < WINNING_SCORE then NextSet
    else GameWon(winner, scores[winner])
  }

  /** As intended: a set without a winner is followed by another set, and the
      game is won exactly when the set's winner has reached WINNING_SCORE. */
  function AfterSet(winner: int, scores: seq<int>): (s: Step)
    requires -1 <= winner < |scores|
    ensures s != OutOfRangeThrown
    ensures s.GameWon? <==> winner >= 0 && scores[winner] >= WINNING_SCORE
    ensures s.GameWon? ==> s.winner == winner && s.score == scores[winner]
  {
    if winner < 0 then NextSet
    else if scores[winner] < WINNING_SCORE then NextSet
    else GameWon(winner, scores[winner])
  }

  /** A set stopped by the turn limit ends the game with an exception as written,
      whatever the scores. */
  lemma DrawnSetThrowsAsWritten(scores: seq<int>)
    ensures AfterSetAsWritten(-1, scores) == OutOfRangeThrown
    ensures AfterSet(-1, scores) == NextSet
  {
  }

  /** The two agree on every set that has a winner. */
  lemma AfterSetAgreesOnWonSets(winner: int, scores: seq<int>)
    requires 0 <= winner < |scores|
    ensures AfterSet(winner, scores) == AfterSetAsWritten(winner, scores)
  {
  }
}
