/** Card values, colours and scoring of the UNO engine (game/card.h, game/card.cpp).
    A card is an immutable value: a colour and an integer value. Digit cards carry
    their digit 0..9; the five special kinds use the codes 10..14. */
module Cards {

  /** The four card colours, declared in the order of their enum codes 0..3. */
  datatype Color = Red | Green | Blue | Yellow

  /** The enum code of a colour. */
  function ColorCode(c: Color): (n: int)
    ensures 0 <= n <= 3
  {
    match c
    case Red => 0
    case Green => 1
    case Blue => 2
    case Yellow => 3
  }

  // Codes of the special card values (enum CardValue).
  const DRAW2: int := 10
  const REVERSE: int := 11
  const SKIP: int := 12
  const WILD: int := 13
  const WILD_DRAW4: int := 14

  /** Score of an action card that is not wild. */
  const ACTION_CARD_SCORE: int := 20
  /** Score of a wild card. */
  const WILD_CARD_SCORE: int := 50

  datatype Card = Card(color: Color, value: int) {

    /** The value lies in the defined domain 0..WildDraw4. */
    predicate IsValid() {
      0 <= value <= WILD_DRAW4
    }

    /** Wild or WildDraw4. */
    predicate IsWild() {
      value == WILD || value == WILD_DRAW4
    }

    /** Draw2, Reverse or Skip: an action card that is not wild. */
    predicate IsAction() {
      value == DRAW2 || value == REVERSE || value == SKIP
    }

    /** A card showing a digit. */
    predicate IsDigit() {
      0 <= value <= 9
    }

    /** Points this card is worth in a hand: wild 50, action 20, a digit its face value. */
    function Score(): (r: int)
      ensures IsValid() ==> 0 <= r <= WILD_CARD_SCORE
      ensures IsDigit() ==> r == value
    {
      if IsWild() then WILD_CARD_SCORE else if IsAction() then ACTION_CARD_SCORE else value
    }
  }

  /** The colour codes are pairwise distinct, so the colour datatype loses nothing of the enum. */
  lemma ColorCodeInjective(a: Color, b: Color)
    ensures ColorCode(a) == ColorCode(b) <==> a == b
  {
  }

  /** Every wild card lies in the valid value domain. */
  lemma WildIsValid(c: Card)
    ensures c.IsWild() ==> c.IsValid()
  {
  }

  /** A valid card is exactly one of: a digit, an action card, a wild card. */
  lemma KindsPartitionValidCards(c: Card)
    ensures c.IsValid() <==> (c.IsDigit() || c.IsAction() || c.IsWild())
    ensures !(c.IsDigit() && c.IsAction())
    ensures !(c.IsDigit() && c.IsWild())
    ensures !(c.IsAction() && c.IsWild())
  {
  }

  /** The score by kind of card, as the comment of getScore promises. */
  lemma ScoreByKind(c: Card)
    ensures c.IsWild() ==> c.Score() == WILD_CARD_SCORE
    ensures c.IsAction() ==> c.Score() == ACTION_CARD_SCORE
    ensures c.IsDigit() ==> c.Score() == c.value
  {
  }
}
