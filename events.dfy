/** Game directions, event tags and observer handler calls (game/events.h).
    An observer's handler call is represented by its arguments; a card passed by
    pointer is passed by value here, and a null card is None. */
module Events {
  import opened Cards

  datatype Option<T> = None | Some(value: T)

  /** Direct: the next player has the larger index in the list; Inverse: the smaller. */
  datatype GameDirection = Direct | Inverse

  /** The tags of enum GameEvent, in declaration order. */
  datatype GameEvent =
    | PlayerEntered | SetStarted | DeckShuffled | FirstCardPlaced | PlayerDealt
    | CardPlayed | PlayerDrewAnotherCard | PlayerDrewAndSkipped | PlayerChangedColor
    | PlayerSaid | PlayerDisqualified | PlayerWonSet | PlayerWonGame | DirectionChanged
    | MessageOverflow | TurnsLimitReached | SetsLimitReached

  /** The enum code of a tag: PlayerEntered is 1 and each later tag is one more. */
  function Code(t: GameEvent): int {
    match t
    case PlayerEntered => 1
    case SetStarted => 2
    case DeckShuffled => 3
    case FirstCardPlaced => 4
    case PlayerDealt => 5
    case CardPlayed => 6
    case PlayerDrewAnotherCard => 7
    case PlayerDrewAndSkipped => 8
    case PlayerChangedColor => 9
    case PlayerSaid => 10
    case PlayerDisqualified => 11
    case PlayerWonSet => 12
    case PlayerWonGame => 13
    case DirectionChanged => 14
    case MessageOverflow => 15
    case TurnsLimitReached => 16
    case SetsLimitReached => 17
  }

  /** A call of one of the seventeen Observer handlers, with its arguments. */
  datatype Call =
    | HandlePlayerEntered(playerIndex: int, name: string)
    | HandleSetStarted(gameNumber: int)
    | HandleDeckShuffled
    | HandleFirstCardPlaced(card: Card)
    | HandlePlayerDealt(playerIndex: int, cardsNumber: int)
    | HandleCardPlayed(playerIndex: int, card: Card)
    | HandlePlayerDrewAnotherCard(playerIndex: int)
    | HandlePlayerDrewAndSkip(playerIndex: int, numberOfCards: int)
    | HandlePlayerChangedColor(playerIndex: int, newColor: Color)
    | HandlePlayerSaid(playerIndex: int, message: string)
    | HandlePlayerDisqualified(playerIndex: int, handScore: int, claimed: Option<Card>)
    | HandlePlayerWonSet(playerIndex: int, score: int)
    | HandlePlayerWonGame(playerIndex: int, totalScore: int)
    | HandleDirectionChanged(newDirection: GameDirection)
    | HandleMessageOverflow
    | HandleTurnsLimitReached
    | HandleSetsLimitReached(winnerIndex: int, winnerScore: int)

  /** The tag each Broadcaster handler passes to beforeEach and afterEach. */
  function Tag(c: Call): GameEvent {
    match c
    case HandlePlayerEntered(_, _) => PlayerEntered
    case HandleSetStarted(_) => SetStarted
    case HandleDeckShuffled => DeckShuffled
    case HandleFirstCardPlaced(_) => FirstCardPlaced
    case HandlePlayerDealt(_, _) => PlayerDealt
    case HandleCardPlayed(_, _) => CardPlayed
    case HandlePlayerDrewAnotherCard(_) => PlayerDrewAnotherCard
    case HandlePlayerDrewAndSkip(_, _) => PlayerDrewAndSkipped
    case HandlePlayerChangedColor(_, _) => PlayerChangedColor
    case HandlePlayerSaid(_, _) => PlayerSaid
    case HandlePlayerDisqualified(_, _, _) => PlayerDisqualified
    case HandlePlayerWonSet(_, _) => PlayerWonSet
    case HandlePlayerWonGame(_, _) => PlayerWonGame
    case HandleDirectionChanged(_) => DirectionChanged
    case HandleMessageOverflow => MessageOverflow
    case HandleTurnsLimitReached => TurnsLimitReached
    case HandleSetsLimitReached(_, _) => SetsLimitReached
  }

  /** The tag codes run 1..17 without gaps or repeats. */
  lemma CodesAreOneToSeventeen(a: GameEvent, b: GameEvent)
    ensures 1 <= Code(a) <= 17
    ensures Code(a) == Code(b) <==> a == b
  {
  }
}
