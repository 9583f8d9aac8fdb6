/** UnoGame (game/uno_game.h, game/uno_game.cpp): the seats, the piles, the
    per-player records and the turn loop of a set. The game keeps a log of the
    Observer calls it makes, in order; how each call reaches the listeners and
    drains the message queue is modelled by Broadcasting. The random engine is a
    function of the seed, the number of shuffles since seeding and the draw
    number; the players' answers are the Decisions given to a set. */
module Engine {
  import opened Cards
  import opened Piles
  import opened Decks
  import opened Events
  import opened Rules
  import opened Seating
  import opened ChosenCards
  import opened Shuffling
  import opened MessageQueues
  import opened GameState
  import opened GameLoop

  /** The seed std::minstd_rand starts from. */
  const DEFAULT_SEED: int := 1

  /** The players' answers, by set number and turn number: the card played (None
      stands for a null card), whether a card just drawn is played, and the colour
      chosen after a wild card. */
  datatype Decisions = Decisions(
    playCard: (int, nat) -> Option<Card>,
    drawAdditionalCard: (int, nat, Card) -> bool,
    changeColor: (int, nat) -> Color)

  /** The fields of a game that a judgement of a claimed card reads and changes. */
  datatype Snapshot = Snapshot(active: int, info: seq<PlayerInfo>, discard: seq<CardId>,
    color: Color, direction: GameDirection, setScore: int, events: seq<Call>)

  /** What a card turned or played does to the colour, the direction and the
      Observer calls of runSet_. */
  datatype Effect = Effect(color: Color, direction: GameDirection, calls: seq<Call>)

  /** The first card of a set: a non-wild card sets the colour, a Wild lets the
      active player choose it, a Reverse turns the direction, each announced in
      that order after the card itself. */
  function Opened(top: Card, color: Color, chosen: Color, active: int): (e: Effect)
    ensures !top.IsWild() ==> e.color == top.color
    ensures top.value == WILD ==> e.color == chosen
    ensures e.direction == Inverse <==> top.value == REVERSE
    ensures |e.calls| > 0 && e.calls[0] == HandleFirstCardPlaced(top)
    ensures HandlePlayerChangedColor(active, chosen) in e.calls <==> top.value == WILD
    ensures HandleDirectionChanged(Inverse) in e.calls <==> top.value == REVERSE
  {
    var color := if top.value == WILD then chosen else if top.IsWild() then color else top.color;
    Effect(color, if top.value == REVERSE then Inverse else Direct,
      [HandleFirstCardPlaced(top)] +
      (if top.value == WILD then [HandlePlayerChangedColor(active, color)] else []) +
      (if top.value == REVERSE then [HandleDirectionChanged(Inverse)] else []))
  }

  /** The other direction. */
  function Reverse(dir: GameDirection): (r: GameDirection)
    ensures r != dir
  {
    match dir
    case Direct => Inverse
    case Inverse => Direct
  }

  /** A card played from the hand of the active player: a non-wild card sets the
      colour and the play is announced; unless the hand is now empty, a wild card
      lets the player choose the colour and a Reverse turns the direction, each
      announced in that order. */
  function Played(card: Card, color: Color, dir: GameDirection, chosen: Color, active: int, emptied: bool): (e: Effect)
    ensures !card.IsWild() ==> e.color == card.color
    ensures card.IsWild() && !emptied ==> e.color == chosen
    ensures card.IsWild() && emptied ==> e.color == color
    ensures e.direction != dir <==> card.value == REVERSE && !emptied
    ensures |e.calls| > 0 && e.calls[0] == HandleCardPlayed(active, card)
    ensures emptied ==> |e.calls| == 1
    ensures HandlePlayerChangedColor(active, chosen) in e.calls <==> card.IsWild() && !emptied
    ensures HandleDirectionChanged(e.direction) in e.calls <==> e.direction != dir
  {
    var color := if card.IsWild() then color else card.color;
    if emptied then Effect(color, dir, [HandleCardPlayed(active, card)])
    else
      var dir := if card.value == REVERSE then Reverse(dir) else dir;
      Effect(if card.IsWild() then chosen else color, dir,
        [HandleCardPlayed(active, card)] +
        (if card.IsWild() then [HandlePlayerChangedColor(active, chosen)] else []) +
        (if card.value == REVERSE then [HandleDirectionChanged(dir)] else []))
  }

  /** The action of the top card on the player after the one who laid it: Draw2
      makes it draw two cards and skip, Skip makes it skip, WildDraw4 makes it
      draw four and skip; None for any other card. */
  function Penalty(top: Card): (r: Option<nat>)
    ensures r.Some? <==> top.value in {DRAW2, SKIP, WILD_DRAW4}
    ensures r == Some(0) <==> top.value == SKIP
  {
    if top.value == DRAW2 then Some(2)
    else if top.value == SKIP then Some(0)
    else if top.value == WILD_DRAW4 then Some(4)
    else None
  }

  /** The last card of a non-empty pile. */
  function Top(pile: seq<CardId>): CardId
    requires pile != []
  {
    pile[|pile| - 1]
  }

  /** The topmost card of the deck that is not a WildDraw4, or -1 if there is none. */
  function LastPlayable(deck: seq<CardId>): (k: int)
    ensures -1 <= k < |deck|
    ensures k >= 0 ==> Face(deck[k]).value != WILD_DRAW4
    ensures forall j :: k < j < |deck| ==> Face(deck[j]).value == WILD_DRAW4
  {
    if deck == [] then -1
    else if Face(deck[|deck| - 1]).value != WILD_DRAW4 then |deck| - 1
    else LastPlayable(deck[..|deck| - 1])
  }

  /** The deck holds a card that is not a WildDraw4, so the loop of
      placeFirstCard ends. */
  predicate HasPlayable(deck: seq<CardId>) {
    exists i :: 0 <= i < |deck| && Face(deck[i]).value != WILD_DRAW4
  }

  /** Turning deck card k over keeps every card in one place, and when it is a
      WildDraw4 the deck keeps a card that is not. */
  lemma TurnOverStep(deck: seq<CardId>, discard: seq<CardId>, info: seq<PlayerInfo>, k: nat)
    requires k < |deck| && Conserved(deck, discard, info)
    requires HasPlayable(deck)
    ensures Conserved(RemoveAt(deck, k), discard + [deck[k]], info)
    ensures Face(deck[k]).value == WILD_DRAW4 ==>
      HasPlayable(RemoveAt(deck, k))
  {
    TurnOver(deck, discard, info, k);
    if Face(deck[k]).value == WILD_DRAW4 {
      PlayableSurvives(deck, k);
    }
  }

  /** The position in the deck of the card an attempt of placeFirstCard turns
      over: the top one by default, the named one otherwise, and -1 when the
      named card is not in the deck (IndexOfFirst). */
  function FirstCardAttempt(deck: seq<CardId>, c: Option<CardId>): (k: int)
    requires deck != []
    ensures -1 <= k < |deck|
    ensures c.None? ==> k == |deck| - 1
    ensures c.Some? && k >= 0 ==> deck[k] == c.value
  {
    if c.None? then |deck| - 1 else IndexOf(deck, c.value)
  }

  /** The loop of placeFirstCard from a given attempt on, with `choice(k)` the
      answer of chooseFirstCard at attempt k: the deck that is left, the discard
      pile and how the loop ended. Each attempt turns over the top card by
      default, or the named card, and the loop stops at the first card that is
      not a WildDraw4; a named card that is not in the deck raises DomainError,
      leaving the cards turned so far on the pile. */
  function TurnedOver(deck: seq<CardId>, discard: seq<CardId>, choice: nat -> Option<CardId>, attempt: nat)
    : (r: (seq<CardId>, seq<CardId>, Status))
    requires HasPlayable(deck)
    ensures r.2 == Done || r.2 == Thrown(DomainError)
    decreases |deck|
  {
    var k := FirstCardAttempt(deck, choice(attempt));
    if k < 0 then (deck, discard, Thrown(DomainError))
    else if Face(deck[k]).value != WILD_DRAW4 then (RemoveAt(deck, k), discard + [deck[k]], Done)
      else
        PlayableSurvives(deck, k);
        TurnedOver(RemoveAt(deck, k), discard + [deck[k]], choice, attempt + 1)
  }

  /** The loop of placeFirstCard only puts cards on the discard pile. */
  lemma {:induction false} TurnedOverExtends(deck: seq<CardId>, discard: seq<CardId>, choice: nat -> Option<CardId>, attempt: nat)
    requires HasPlayable(deck)
    ensures var r := TurnedOver(deck, discard, choice, attempt);
      |discard| <= |r.1| && r.1[..|discard|] == discard
    decreases |deck|
  {
    var k := FirstCardAttempt(deck, choice(attempt));
    if k < 0 || Face(deck[k]).value != WILD_DRAW4 {
      TurnedOverLast(deck, discard, choice, attempt);
      return;
    }
    TurnedOverStep(deck, discard, choice, attempt);
    var discard' := discard + [deck[k]];
    TurnedOverExtends(RemoveAt(deck, k), discard', choice, attempt + 1);
    var r := TurnedOver(deck, discard, choice, attempt);
    assert r.1[..|discard|] == r.1[..|discard'|][..|discard|];
  }

  /** The loop of placeFirstCard keeps every card in one place, and only puts
      cards on the discard pile. */
  lemma {:induction false} TurnedOverKeepsCards(deck: seq<CardId>, discard: seq<CardId>, choice: nat -> Option<CardId>, attempt: nat)
    requires HasPlayable(deck)
    ensures var r := TurnedOver(deck, discard, choice, attempt);
      multiset(r.0) + multiset(r.1) == multiset(deck) + multiset(discard) &&
      |discard| <= |r.1| && r.1[..|discard|] == discard
    decreases |deck|
  {
    TurnedOverExtends(deck, discard, choice, attempt);
    var k := FirstCardAttempt(deck, choice(attempt));
    if k < 0 || Face(deck[k]).value != WILD_DRAW4 {
      TurnedOverLast(deck, discard, choice, attempt);
      if k >= 0 {
        RemoveAtMultiset(deck, k);
      }
      return;
    }
    TurnedOverStep(deck, discard, choice, attempt);
    RemoveAtMultiset(deck, k);
    var discard' := discard + [deck[k]];
    TurnedOverKeepsCards(RemoveAt(deck, k), discard', choice, attempt + 1);
    assert multiset(discard') == multiset(discard) + multiset{deck[k]};
  }

  /** From position `from` of the discard pile on, the card of every attempt
      that names one is the named card. */
  predicate TurnsNamed(turned: seq<CardId>, from: nat, choice: nat -> Option<CardId>, attempt: nat) {
    forall j :: from <= j < |turned| && choice(attempt + j - from).Some? ==>
      turned[j] == choice(attempt + j - from).value
  }

  lemma TurnsNamedStep(turned: seq<CardId>, discard: seq<CardId>, card: CardId, choice: nat -> Option<CardId>, attempt: nat)
    requires |discard| < |turned| && turned[..|discard| + 1] == discard + [card]
    requires TurnsNamed(turned, |discard| + 1, choice, attempt + 1)
    requires choice(attempt).Some? ==> card == choice(attempt).value
    ensures TurnsNamed(turned, |discard|, choice, attempt)
  {
    assert turned[|discard|] == turned[..|discard| + 1][|discard|] == card;
    var from := |discard|;
    forall j | from < j < |turned| && choice(attempt + j - from).Some?
      ensures turned[j] == choice(attempt + j - from).value
    {
      assert attempt + 1 + j - (from + 1) == attempt + j - from;
    }
  }

  /** A card turned over at an attempt is the card the attempt names, if it names one. */
  lemma {:induction false} TurnsNamedOne(discard: seq<CardId>, card: CardId, choice: nat -> Option<CardId>, attempt: nat)
    requires choice(attempt).Some? ==> card == choice(attempt).value
    ensures TurnsNamed(discard + [card], |discard|, choice, attempt)
  {
  }

  /** One attempt of the loop of placeFirstCard that turns over a WildDraw4:
      the loop goes on with the rest of the deck. */
  lemma TurnedOverStep(deck: seq<CardId>, discard: seq<CardId>, choice: nat -> Option<CardId>, attempt: nat)
    requires HasPlayable(deck)
    requires var k := FirstCardAttempt(deck, choice(attempt)); k >= 0 && Face(deck[k]).value == WILD_DRAW4
    ensures var k := FirstCardAttempt(deck, choice(attempt));
      HasPlayable(RemoveAt(deck, k)) &&
      TurnedOver(deck, discard, choice, attempt) ==
        TurnedOver(RemoveAt(deck, k), discard + [deck[k]], choice, attempt + 1)
  {
    PlayableSurvives(deck, FirstCardAttempt(deck, choice(attempt)));
  }

  /** The last attempt of the loop of placeFirstCard: a named card that is not
      in the deck raises DomainError, any other card that is not a WildDraw4
      ends the loop on the discard pile. */
  lemma TurnedOverLast(deck: seq<CardId>, discard: seq<CardId>, choice: nat -> Option<CardId>, attempt: nat)
    requires HasPlayable(deck)
    requires var k := FirstCardAttempt(deck, choice(attempt)); k < 0 || Face(deck[k]).value != WILD_DRAW4
    ensures var k := FirstCardAttempt(deck, choice(attempt)); var r := TurnedOver(deck, discard, choice, attempt);
      if k < 0 then r == (deck, discard, Thrown(DomainError))
      else r == (RemoveAt(deck, k), discard + [deck[k]], Done)
  {
  }

  /** Every attempt of the loop of placeFirstCard that names a card turns that
      card over. */
  lemma {:induction false} TurnedOverNamed(deck: seq<CardId>, discard: seq<CardId>, choice: nat -> Option<CardId>, attempt: nat)
    requires HasPlayable(deck)
    ensures TurnsNamed(TurnedOver(deck, discard, choice, attempt).1, |discard|, choice, attempt)
    decreases |deck|
  {
    var k := FirstCardAttempt(deck, choice(attempt));
    if k < 0 || Face(deck[k]).value != WILD_DRAW4 {
      TurnedOverLast(deck, discard, choice, attempt);
      if k >= 0 {
        TurnsNamedOne(discard, deck[k], choice, attempt);
      }
      return;
    }
    TurnedOverStep(deck, discard, choice, attempt);
    var discard' := discard + [deck[k]];
    var turned := TurnedOver(RemoveAt(deck, k), discard', choice, attempt + 1).1;
    TurnedOverNamed(RemoveAt(deck, k), discard', choice, attempt + 1);
    TurnedOverExtends(RemoveAt(deck, k), discard', choice, attempt + 1);
    assert choice(attempt).Some? ==> deck[k] == choice(attempt).value;
    TurnsNamedStep(turned, discard, deck[k], choice, attempt);
  }

  /** The loop of placeFirstCard turns over WildDraw4s but for the last card,
      which is not one exactly when the loop completes. */
  lemma {:induction false} TurnedOverWildDraw4s(deck: seq<CardId>, discard: seq<CardId>, choice: nat -> Option<CardId>, attempt: nat)
    requires HasPlayable(deck)
    ensures var r := TurnedOver(deck, discard, choice, attempt);
      |discard| <= |r.1| &&
      (forall j :: |discard| <= j < |r.1| - 1 ==> Face(r.1[j]).value == WILD_DRAW4) &&
      (r.2 == Done <==> |discard| < |r.1| && Face(Top(r.1)).value != WILD_DRAW4)
    decreases |deck|
  {
    var k := FirstCardAttempt(deck, choice(attempt));
    if k < 0 || Face(deck[k]).value != WILD_DRAW4 {
      TurnedOverLast(deck, discard, choice, attempt);
      return;
    }
    TurnedOverStep(deck, discard, choice, attempt);
    var discard' := discard + [deck[k]];
    TurnedOverWildDraw4s(RemoveAt(deck, k), discard', choice, attempt + 1);
    TurnedOverExtends(RemoveAt(deck, k), discard', choice, attempt + 1);
    var r := TurnedOver(RemoveAt(deck, k), discard', choice, attempt + 1);
    assert r.1[|discard|] == r.1[..|discard'|][|discard|] == deck[k];
    WildDraw4sBelow(r.1, r.2, |discard|);
  }

  /** A WildDraw4 at position `from` of the discard pile extends the run of
      WildDraw4s that starts above it. */
  lemma WildDraw4sBelow(turned: seq<CardId>, st: Status, from: nat)
    requires from < |turned| && Face(turned[from]).value == WILD_DRAW4
    requires forall j :: from + 1 <= j < |turned| - 1 ==> Face(turned[j]).value == WILD_DRAW4
    requires st == Done <==> from + 1 < |turned| && Face(Top(turned)).value != WILD_DRAW4
    ensures forall j :: from <= j < |turned| - 1 ==> Face(turned[j]).value == WILD_DRAW4
    ensures st == Done <==> from < |turned| && Face(Top(turned)).value != WILD_DRAW4
  {
  }

  /** When the loop of placeFirstCard raises DomainError, the card named at the
      failing attempt is not in the deck that is left. */
  lemma {:induction false} TurnedOverThrows(deck: seq<CardId>, discard: seq<CardId>, choice: nat -> Option<CardId>, attempt: nat)
    requires HasPlayable(deck)
    ensures var r := TurnedOver(deck, discard, choice, attempt);
      r.2.Thrown? ==> |discard| <= |r.1| && var c := choice(attempt + |r.1| - |discard|); c.Some? && c.value !in r.0
    decreases |deck|
  {
    var k := FirstCardAttempt(deck, choice(attempt));
    if k < 0 || Face(deck[k]).value != WILD_DRAW4 {
      TurnedOverLast(deck, discard, choice, attempt);
      if k < 0 {
        IndexOfFirst(deck, choice(attempt).value);
      }
      return;
    }
    TurnedOverStep(deck, discard, choice, attempt);
    var discard' := discard + [deck[k]];
    TurnedOverThrows(RemoveAt(deck, k), discard', choice, attempt + 1);
    var r := TurnedOver(RemoveAt(deck, k), discard', choice, attempt + 1);
    assert attempt + 1 + |r.1| - |discard'| == attempt + |r.1| - |discard|;
  }

  /** With the default chooseFirstCard every time, the cards from the top of the
      deck down to the topmost one that is not a WildDraw4 are turned over, the
      top first. */
  lemma {:induction false} TurnedOverByDefault(deck: seq<CardId>, discard: seq<CardId>, choice: nat -> Option<CardId>, attempt: nat)
    requires HasPlayable(deck)
    requires forall k :: choice(k).None?
    ensures var l := LastPlayable(deck);
      0 <= l && TurnedOver(deck, discard, choice, attempt) == (deck[..l], discard + Reversed(deck[l..]), Done)
    decreases |deck|
  {
    var n := |deck| - 1;
    var l := LastPlayable(deck);
    assert FirstCardAttempt(deck, choice(attempt)) == n && RemoveAt(deck, n) == deck[..n];
    if Face(deck[n]).value == WILD_DRAW4 {
      TurnedOverStep(deck, discard, choice, attempt);
      TurnedOverByDefault(deck[..n], discard + [deck[n]], choice, attempt + 1);
      assert LastPlayable(deck[..n]) == l;
      TopTurnedFirst(deck, l, discard);
    } else {
      TurnedOverLast(deck, discard, choice, attempt);
      assert deck[l..] == [deck[n]];
      assert Reversed(deck[l..]) == [deck[n]];
    }
  }

  /** Turning over the top card of the deck and then the cards from n - 1 down
      to l lays the cards from the top down to l, the top first. */
  lemma TopTurnedFirst(deck: seq<CardId>, l: nat, discard: seq<CardId>)
    requires l < |deck| - 1
    ensures var n := |deck| - 1;
      deck[..n][..l] == deck[..l] &&
      discard + [deck[n]] + Reversed(deck[..n][l..]) == discard + Reversed(deck[l..])
  {
    var n := |deck| - 1;
    assert deck[..n][l..] == deck[l..n];
    assert deck[l..][1..] == deck[l + 1..];
    assert Reversed(deck[l..]) == [deck[n]] + Reversed(deck[l..n]);
  }

  /** With the default chooseFirstCard every time, the loop of placeFirstCard
      leaves the topmost card that is not a WildDraw4 on top of the discard
      pile, above the cards the pile held and the WildDraw4s turned over. */
  lemma TurnedOverFirstPlayable(deck: seq<CardId>, discard: seq<CardId>, choice: nat -> Option<CardId>)
    requires HasPlayable(deck)
    requires forall k :: choice(k).None?
    ensures var l := LastPlayable(deck); var r := TurnedOver(deck, discard, choice, 0);
      var back := discard + Reversed(deck[l + 1..]);
      0 <= l && r.2 == Done && r.0 == deck[..l] && r.1 == back + [deck[l]] &&
      Top(r.1) == deck[l] && (|r.1| > 1 <==> back != []) &&
      r.0 + r.1[..|r.1| - 1] == deck[..l] + back && (back == [] ==> r.1 == [deck[l]])
  {
    var l := LastPlayable(deck);
    var back := discard + Reversed(deck[l + 1..]);
    TurnedOverByDefault(deck, discard, choice, 0);
    var r := TurnedOver(deck, discard, choice, 0);
    assert r.1 == back + [deck[l]] by {
      assert deck[l..][1..] == deck[l + 1..];
      assert Reversed(deck[l..]) == Reversed(deck[l + 1..]) + [deck[l]];
    }
    assert r.1[..|r.1| - 1] == back;
  }

  /** The loop of placeFirstCard, on the deck and the discard pile. */
  method TurnOverFirstCard(deck: seq<CardId>, discard: seq<CardId>, info: seq<PlayerInfo>, choice: nat -> Option<CardId>)
    returns (pile: seq<CardId>, turned: seq<CardId>, st: Status)
    requires Conserved(deck, discard, info)
    requires HasPlayable(deck)
    ensures (pile, turned, st) == TurnedOver(deck, discard, choice, 0)
    ensures Conserved(pile, turned, info)
  {
    pile, turned := deck, discard;
    var attempt: nat := 0;
    st := Done;
    while true
      invariant Conserved(pile, turned, info)
      invariant HasPlayable(pile)
      invariant TurnedOver(pile, turned, choice, attempt) == TurnedOver(deck, discard, choice, 0)
      decreases |pile|
    {
      var c := choice(attempt);
      var k: nat;
      if c.None? {
        k := |pile| - 1;
      } else {
        var found := IndexOf(pile, c.value);
        if found < 0 {
          TurnedOverLast(pile, turned, choice, attempt);
          st := Thrown(DomainError);
          break;
        }
        k := found;
      }
      var card := pile[k];
      TurnOverStep(pile, turned, info, k);
      if Face(card).value != WILD_DRAW4 {
        TurnedOverLast(pile, turned, choice, attempt);
        turned, pile := turned + [card], RemoveAt(pile, k);
        break;
      }
      TurnedOverStep(pile, turned, choice, attempt);
      turned, pile := turned + [card], RemoveAt(pile, k);
      attempt := attempt + 1;
    }
  }

  /** A non-WildDraw4 card survives the removal of a WildDraw4. */
  lemma PlayableSurvives(deck: seq<CardId>, k: nat)
    requires k < |deck| && Face(deck[k]).value == WILD_DRAW4
    requires HasPlayable(deck)
    ensures HasPlayable(RemoveAt(deck, k))
  {
    var i :| 0 <= i < |deck| && Face(deck[i]).value != WILD_DRAW4;
    if i < k {
      assert RemoveAt(deck, k)[i] == deck[i];
    } else {
      assert RemoveAt(deck, k)[i - 1] == deck[i];
    }
  }

  /** A disqualification keeps a set going: the rotation without the active
      player a is a rotation, the player next to a is still in it, and the set
      score, which gains a's hand score, holds the hands of everyone outside it. */
  lemma {:induction false} DisqualifyKeepsSet(info: seq<PlayerInfo>, rot: seq<int>, a: int, dir: GameDirection, setScore: int)
    requires Rotation(rot, |info|) && a in rot && |rot| >= MIN_NUMBER_OF_PLAYERS
    requires setScore == OutsideScore(info, rot, |info|)
    ensures var rest := RemovePlayer(rot, a);
      0 <= a < |info| && Rotation(rest, |info|) && a !in rest && NextPlayerIndex(rot, a, dir) in rest &&
      setScore + HandValue(info, a) == OutsideScore(info, rest, |info|)
  {
    NextIsAnotherPlayer(rot, a, dir);
    RemoveKeepsRotation(rot, |info|, a);
    OutsideRemove(info, rot, RemovePlayer(rot, a), a, |info|);
  }

  /** Adding the set score to the winner a's total changes only a's entry of the
      scores, and not the hand score of the others. */
  lemma {:induction false} AwardKeepsOthers(info: seq<PlayerInfo>, info': seq<PlayerInfo>, a: int, score: int)
    requires 0 <= a < |info| && info' == info[a := info[a].(currentScore := info[a].currentScore + score)]
    ensures |info'| == |info| && ScoreExcept(info', a, |info|) == ScoreExcept(info, a, |info|)
  {
    ScoreExceptIgnoresScores(info, a, info[a].currentScore + score, a, |info|);
  }

  /** Awarding a set changes the winner's entry of the scores only. */
  lemma {:induction false} AwardChangesScores(info: seq<PlayerInfo>, info': seq<PlayerInfo>, a: int, score: int)
    requires 0 <= a < |info| && info' == info[a := info[a].(currentScore := info[a].currentScore + score)]
    ensures Awarded(ScoresOf(info), ScoresOf(info'), a, score)
  {
    ScoreChange(info, a, info[a].currentScore + score);
    assert ScoresOf(info)[a] == info[a].currentScore;
  }

  /** The loop of shufflePlayers_: seat i is exchanged with seat perm[i], for i
      in order, the player records with them. */
  method SwapSeats(seats: seq<Seat>, info: seq<PlayerInfo>, perm: seq<int>) returns (players: seq<Seat>, records: seq<PlayerInfo>)
    requires |seats| == |info| && PermutationFits(|seats|, perm)
    ensures players == ApplySwaps(seats, perm, 0) && records == ApplySwaps(info, perm, 0)
  {
    players, records := seats, info;
    var i := 0;
    while i < |perm|
      invariant 0 <= i <= |perm| && |players| == |records| == |seats|
      invariant ApplySwaps(players, perm, i) == ApplySwaps(seats, perm, 0)
      invariant ApplySwaps(records, perm, i) == ApplySwaps(info, perm, 0)
    {
      players := Swap(players, i, perm[i]);
      if records != [] {
        records := Swap(records, i, perm[i]);
      }
      i := i + 1;
    }
  }

  /** A shuffled list of the seats is a permutation shufflePlayers_ accepts. */
  lemma ShuffledSeatsFit(n: nat, draw: nat -> nat)
    ensures PermutationFits(n, Shuffled(Everyone(n), draw, 0))
  {
    var perm := Shuffled(Everyone(n), draw, 0);
    ShuffledIsPermutation(Everyone(n), draw, 0);
    forall i | 0 <= i < |perm|
      ensures 0 <= perm[i] < n
    {
      assert perm[i] in multiset(Everyone(n));
    }
  }

  /** The deck getCardsFromDeck draws m cards from: when the deck holds fewer, the
      discard pile but its top card is added and the whole shuffled (flushDiscardPile). */
  function Refilled(deck: seq<CardId>, discard: seq<CardId>, draw: nat -> nat, m: int): seq<CardId> {
    if m > |deck| && |discard| >= 2 then Shuffled(deck + discard[..|discard| - 1], draw, 0) else deck
  }

  /** The cards getCardsFromDeck gives from the deck `refilled` when m of them are
      asked for and chooseCards answered `chosen`, and the deck it leaves: the
      default takes the top m cards, topmost first; an answer is accepted when it
      has m pairwise distinct cards of the deck, which then leave it, and raises
      LengthError or DomainError otherwise. */
  predicate GivenFrom(refilled: seq<CardId>, m: int, chosen: seq<CardId>, r: Result<seq<CardId>>, deck: seq<CardId>) {
    0 <= m <= |refilled| &&
    (chosen == [] ==> r == Ok(Reversed(refilled[|refilled| - m..])) && deck == refilled[..|refilled| - m]) &&
    (chosen != [] ==>
      (r.Ok? <==> |chosen| == m && Distinct(chosen) && forall i :: 0 <= i < |chosen| ==> chosen[i] in refilled) &&
      (r.Ok? ==> r.value == chosen && deck == Without(refilled, chosen)) &&
      (r.Throws? ==> r.exception == (if |chosen| != m then LengthError else DomainError) && deck == refilled))
  }

  /** A draw of m cards with the default chooseCards from the deck deck0 and the
      discard pile discard0, `draw` being the draws of the shuffle it may need:
      the cards drawn are the top m cards of the refilled deck, topmost first,
      and the deck keeps the rest; the discard pile is cut down to its top card
      exactly when the deck held fewer than m cards. */
  predicate Drew(deck0: seq<CardId>, discard0: seq<CardId>, draw: nat -> nat, m: int,
    drawn: seq<CardId>, deck: seq<CardId>, discard: seq<CardId>)
  {
    discard0 != [] &&
    var refilled := Refilled(deck0, discard0, draw, m);
    0 <= m <= |refilled| && drawn == Reversed(refilled[|refilled| - m..]) && deck == refilled[..|refilled| - m] &&
    discard == (if m > |deck0| then [Top(discard0)] else discard0)
  }

  /** GivenFrom with the default chooseCards, together with the flush of the
      discard pile, is a Drew. */
  lemma {:induction false} DrewFromGiven(deck0: seq<CardId>, discard0: seq<CardId>, draw: nat -> nat, m: int,
    drawn: seq<CardId>, deck: seq<CardId>, discard: seq<CardId>)
    requires GivenFrom(Refilled(deck0, discard0, draw, m), m, [], Ok(drawn), deck)
    requires discard0 != [] && discard == (if m > |deck0| then [Top(discard0)] else discard0)
    ensures Drew(deck0, discard0, draw, m, drawn, deck, discard)
  {
  }

  /** Drawing no card leaves the deck and the discard pile as they were. */
  lemma {:induction false} DrewNothing(deck0: seq<CardId>, discard0: seq<CardId>, draw: nat -> nat)
    requires discard0 != []
    ensures Drew(deck0, discard0, draw, 0, [], deck0, discard0)
  {
    assert deck0[..|deck0|] == deck0;
    assert deck0[|deck0|..] == [];
  }

  /** A draw the deck covers takes the deck's last m cards, the last one first,
      and leaves the discard pile alone. */
  lemma {:induction false} DrewFromDeck(deck0: seq<CardId>, discard0: seq<CardId>, draw: nat -> nat, m: int,
    drawn: seq<CardId>, deck: seq<CardId>, discard: seq<CardId>)
    requires Drew(deck0, discard0, draw, m, drawn, deck, discard) && m <= |deck0|
    ensures drawn == Reversed(deck0[|deck0| - m..]) && deck == deck0[..|deck0| - m] && discard == discard0
    ensures |drawn| == m && forall k :: 0 <= k < m ==> drawn[k] == deck0[|deck0| - 1 - k]
  {
  }

  /** Cutting a deck and turning the top part over keeps its cards. */
  lemma {:induction false} CutKeepsCards(refilled: seq<CardId>, k: int, drawn: seq<CardId>, deck: seq<CardId>)
    requires 0 <= k <= |refilled| && drawn == Reversed(refilled[k..]) && deck == refilled[..k]
    ensures multiset(drawn) + multiset(deck) == multiset(refilled)
  {
    ReversedKeepsMultiset(refilled[k..]);
    assert refilled == refilled[..k] + refilled[k..];
  }

  /** Flushing the discard pile into the deck keeps the cards of both. */
  lemma {:induction false} FlushKeepsCards(deck0: seq<CardId>, discard0: seq<CardId>, draw: nat -> nat)
    requires |discard0| >= 2
    ensures multiset(Shuffled(deck0 + discard0[..|discard0| - 1], draw, 0)) + multiset([Top(discard0)]) ==
      multiset(deck0) + multiset(discard0)
  {
    var rest := discard0[..|discard0| - 1];
    ShuffledIsPermutation(deck0 + rest, draw, 0);
    assert discard0 == rest + [Top(discard0)];
  }

  /** A draw loses no card and makes none: the cards drawn, the deck left and
      the discard pile left are those of the deck and the discard pile before. */
  lemma {:induction false} DrewKeepsCards(deck0: seq<CardId>, discard0: seq<CardId>, draw: nat -> nat, m: int,
    drawn: seq<CardId>, deck: seq<CardId>, discard: seq<CardId>)
    requires Drew(deck0, discard0, draw, m, drawn, deck, discard)
    ensures multiset(drawn) + multiset(deck) + multiset(discard) == multiset(deck0) + multiset(discard0)
  {
    var refilled := Refilled(deck0, discard0, draw, m);
    CutKeepsCards(refilled, |refilled| - m, drawn, deck);
    if m > |deck0| && |discard0| >= 2 {
      FlushKeepsCards(deck0, discard0, draw);
    }
  }

  /** The cards given, if any, go to the end of the hand of player p; nothing else
      in the records changes. */
  predicate Received(info0: seq<PlayerInfo>, p: int, r: Result<seq<CardId>>, info: seq<PlayerInfo>) {
    0 <= p < |info0| &&
    info == if r.Ok? then info0[p := info0[p].(hand := info0[p].hand + r.value)] else info0
  }

  lemma GivenFacts(refilled: seq<CardId>, m: int, chosen: seq<CardId>, r: Result<seq<CardId>>, deck: seq<CardId>)
    requires GivenFrom(refilled, m, chosen, r, deck)
    ensures r.Ok? ==> |r.value| == m
    ensures chosen == [] ==> r.Ok?
    ensures chosen == [] ==> deck == refilled[..|refilled| - m]
    ensures chosen == [] ==> r.value == Reversed(refilled[|refilled| - m..])
  {
  }

  lemma ReceivedFacts(info0: seq<PlayerInfo>, p: int, r: Result<seq<CardId>>, info: seq<PlayerInfo>)
    requires Received(info0, p, r, info)
    ensures |info| == |info0| && 0 <= p < |info|
    ensures forall q :: 0 <= q < |info| && q != p ==> info[q] == info0[q]
    ensures info[p].currentScore == info0[p].currentScore
    ensures r.Ok? ==> info[p].hand == info0[p].hand + r.value
    ensures r.Throws? ==> info == info0
  {
  }

  /** What dealCards gives with the default chooseCards, whether or not any card
      was asked for: the top m cards of the deck, which go to player p. */
  lemma {:induction false} DrawnFacts(refilled: seq<CardId>, m: int, given: Result<seq<CardId>>, deck: seq<CardId>,
    info0: seq<PlayerInfo>, p: int, info: seq<PlayerInfo>)
    requires 0 <= m <= |refilled| && 0 <= p < |info0|
    requires m == 0 ==> given == Ok([]) && deck == refilled && info == info0
    requires m > 0 ==> GivenFrom(refilled, m, [], given, deck) && Received(info0, p, given, info)
    ensures given.Ok? && |given.value| == m && GivenFrom(refilled, m, [], given, deck)
    ensures info == info0[p := info0[p].(hand := info0[p].hand + given.value)]
  {
    if m == 0 {
      assert info0[p].hand + [] == info0[p].hand;
      assert refilled[..|refilled|] == refilled;
    }
  }

  /** After getCardsFromDeck the top of the discard pile is the same, and the
      deck was shuffled, and DeckShuffled announced, exactly when it was flushed. */
  lemma {:induction false} FlushedFacts(discard0: seq<CardId>, discard: seq<CardId>, shuffles0: nat, shuffles: nat,
    events0: seq<Call>, events: seq<Call>, flushed: bool)
    requires discard0 != [] && discard == (if flushed then [Top(discard0)] else discard0)
    requires shuffles == shuffles0 + (if flushed then 1 else 0)
    requires events == events0 + (if flushed then [HandleDeckShuffled] else [])
    ensures discard != [] && Top(discard) == Top(discard0)
    ensures events == events0 + (if shuffles > shuffles0 then [HandleDeckShuffled] else [])
  {
  }

  /** How many cards getCardsFromDeck hands out when asked for n while the deck
      and the discard pile hold total cards: a request of zero is empty, and a
      negative or too large request (compared as unsigned) is cut down to all
      cards but the top of the discard pile. */
  function Requested(n: int, total: int): (m: int)
    requires total >= 1
    ensures 0 <= m <= total - 1
    ensures n == 0 ==> m == 0
    ensures 0 < n <= total - 1 ==> m == n
    ensures (n < 0 || n > total - 1) ==> m == total - 1
  {
    if n == 0 then 0 else if n < 0 || n > total - 1 then total - 1 else n
  }

  /** How many cards of the full deck the first q hands of the initial deal
      leave (UndealtIs gives the closed form). */
  function Undealt(q: nat): int
  {
    if q == 0 then DECK_SIZE else Undealt(q - 1) - INITIAL_CARDS_NUMBER
  }

  lemma {:induction false} UndealtIs(q: nat)
    ensures Undealt(q) == DECK_SIZE - INITIAL_CARDS_NUMBER * q
  {
    if q > 0 {
      UndealtIs(q - 1);
    }
  }

  lemma UndealtLeaves(q: nat)
    requires q < MAX_NUMBER_OF_PLAYERS
    ensures Undealt(q) > INITIAL_CARDS_NUMBER
  {
    UndealtIs(q);
  }

  /** The deal leaves more than four cards in the deck, so one of them is not a
      WildDraw4. */
  lemma DealLeavesEnough(n: nat)
    requires n <= MAX_NUMBER_OF_PLAYERS
    ensures DECK_SIZE - INITIAL_CARDS_NUMBER * n > 4
  {
  }

  /** The seven cards the initial deal gives the player in seat q from a full
      deck: the q-th group of seven from the top, topmost first. */
  function InitialHand(deck: seq<CardId>, q: nat): (hand: seq<CardId>)
    requires |deck| == DECK_SIZE && q < MAX_NUMBER_OF_PLAYERS
    ensures |hand| == INITIAL_CARDS_NUMBER
  {
    UndealtIs(q);
    UndealtIs(q + 1);
    Reversed(deck[Undealt(q + 1)..Undealt(q)])
  }

  /** Card i of the initial hand of seat q is the (7q + i)-th card from the top
      of the deck: the deal gives each player a distinct group of seven. */
  lemma InitialHandCards(deck: seq<CardId>, q: nat)
    requires |deck| == DECK_SIZE && q < MAX_NUMBER_OF_PLAYERS
    ensures forall i :: 0 <= i < INITIAL_CARDS_NUMBER ==>
      InitialHand(deck, q)[i] == deck[DECK_SIZE - 1 - INITIAL_CARDS_NUMBER * q - i]
  {
    UndealtIs(q);
    UndealtIs(q + 1);
  }

  /** After the initial deal every player holds seven cards and its score. */
  lemma InitialHandsSize(info0: seq<PlayerInfo>, info: seq<PlayerInfo>, deck: seq<CardId>)
    requires |deck| == DECK_SIZE && |info| == |info0| <= MAX_NUMBER_OF_PLAYERS
    requires forall q :: 0 <= q < |info| ==> info[q] == info0[q].(hand := InitialHand(deck, q))
    ensures forall q :: 0 <= q < |info| ==>
      |info[q].hand| == INITIAL_CARDS_NUMBER && info[q].currentScore == info0[q].currentScore
  {
  }

  /** The player records once the players before seat q have their initial
      hands. */
  function Dealt(info: seq<PlayerInfo>, deck: seq<CardId>, q: nat): (r: seq<PlayerInfo>)
    requires |deck| == DECK_SIZE && |info| <= MAX_NUMBER_OF_PLAYERS
    ensures |r| == |info|
  {
    seq(|info|, j requires 0 <= j < |info| => info[j].(hand := if j < q then InitialHand(deck, j) else []))
  }

  lemma DealtStep(info: seq<PlayerInfo>, deck: seq<CardId>, q: nat, before: seq<PlayerInfo>)
    requires |deck| == DECK_SIZE && q < |info| <= MAX_NUMBER_OF_PLAYERS && before == Dealt(info, deck, q)
    ensures Dealt(info, deck, q + 1) == before[q := before[q].(hand := before[q].hand + InitialHand(deck, q))]
  {
    assert before[q].hand + InitialHand(deck, q) == InitialHand(deck, q);
  }

  /** Dealing the top seven cards of what the deal has left to seat q is the
      next step of the deal. */
  lemma DealtNext(info: seq<PlayerInfo>, deck0: seq<CardId>, q: nat, before: seq<PlayerInfo>, deck: seq<CardId>)
    requires |deck0| == DECK_SIZE && q < |info| <= MAX_NUMBER_OF_PLAYERS && before == Dealt(info, deck0, q)
    requires |deck| == Undealt(q) && deck <= deck0
    ensures var cut := |deck| - INITIAL_CARDS_NUMBER;
      0 < cut == Undealt(q + 1) && deck[..cut] <= deck0 &&
      Dealt(info, deck0, q + 1) == before[q := before[q].(hand := before[q].hand + Reversed(deck[cut..]))]
  {
    UndealtIs(q);
    UndealtIs(q + 1);
    var cut := |deck| - INITIAL_CARDS_NUMBER;
    assert deck[cut..] == deck0[cut..Undealt(q)];
    DealtStep(info, deck0, q, before);
  }

  lemma DealtNone(info: seq<PlayerInfo>, deck: seq<CardId>)
    requires |deck| == DECK_SIZE && |info| <= MAX_NUMBER_OF_PLAYERS
    requires forall q :: 0 <= q < |info| ==> info[q].hand == []
    ensures Dealt(info, deck, 0) == info
  {
  }

  /** The handlePlayerEntered calls of initPlayerInfo, seat by seat. */
  function EnteredCalls(seats: seq<Seat>, names: seq<string>): (r: seq<Call>)
    ensures |r| == |seats|
  {
    seq(|seats|, s requires 0 <= s < |seats| =>
      HandlePlayerEntered(seats[s].playerIndex, if seats[s].id < |names| then names[seats[s].id] else ""))
  }

  /** The handlePlayerDealt calls of the initial deal, seat by seat. */
  function DealtCalls(n: nat): (r: seq<Call>)
    ensures |r| == n
  {
    seq(n, q requires 0 <= q < n => HandlePlayerDealt(q, INITIAL_CARDS_NUMBER))
  }

  lemma DealtCallsStep(events: seq<Call>, n: nat)
    ensures events + DealtCalls(n + 1) == events + DealtCalls(n) + [HandlePlayerDealt(n, INITIAL_CARDS_NUMBER)]
  {
    assert DealtCalls(n + 1) == DealtCalls(n) + [HandlePlayerDealt(n, INITIAL_CARDS_NUMBER)];
  }

  class UnoGame {
    var deck: seq<CardId>
    var discardPile: seq<CardId>
    /** The players in seat order. */
    var seats: seq<Seat>
    /** The players' names by registration number. */
    var names: seq<string>
    var playerInfo: seq<PlayerInfo>
    var currentDirection: GameDirection
    var currentColor: Color
    var activePlayerIndex: int
    var currentSetScore: int
    var currentSetNumber: int
    var currentTurnNumber: nat
    var turnsLimit: nat
    var setsLimit: nat
    var seed: int
    /** Shuffles made since the engine was last seeded. */
    var shuffles: nat
    /** The Observer calls made so far. */
    var events: seq<Call>
    const messageQueue: MessageQueue
    const random: (int, nat, nat) -> nat

    /** Every seat holds the player told that seat number, there is one record per
        seat, at most ten seats, and every card is in exactly one place. */
    ghost predicate Valid()
      reads this`playerInfo, this`seats, this`names, this`deck, this`discardPile
    {
      |playerInfo| == |seats| == |names| <= MAX_NUMBER_OF_PLAYERS &&
      Numbered(seats) && Conserved(deck, discardPile, playerInfo)
    }

    /** The draws of the random engine seeded with s for its c-th shuffle. */
    function Draws(s: int, c: nat): nat -> nat {
      k => random(s, c, k)
    }

    constructor (random: (int, nat, nat) -> nat)
      ensures Valid() && fresh(messageQueue)
      ensures messageQueue.State() == Fresh(DEFAULT_MESSAGE_QUEUE_LIMIT)
      ensures deck == Ids(DECK_SIZE) && discardPile == []
      ensures seats == [] && names == [] && playerInfo == [] && events == []
      ensures currentDirection == Direct && currentColor == Red
      ensures activePlayerIndex == -1 && currentSetScore == 0
      ensures turnsLimit == DEFAULT_TURNS_LIMIT && setsLimit == DEFAULT_SETS_LIMIT
      ensures seed == DEFAULT_SEED && shuffles == 0 && this.random == random
    {
      this.random := random;
      messageQueue := new MessageQueue(DEFAULT_MESSAGE_QUEUE_LIMIT);
      var cards := PrepareDeck();
      DeckSize();
      deck := Ids(|cards|);
      discardPile := [];
      seats := [];
      names := [];
      playerInfo := [];
      currentDirection := Direct;
      currentColor := Red;
      activePlayerIndex := -1;
      currentSetScore := 0;
      currentSetNumber := 0;
      currentTurnNumber := 0;
      turnsLimit := DEFAULT_TURNS_LIMIT;
      setsLimit := DEFAULT_SETS_LIMIT;
      seed := DEFAULT_SEED;
      shuffles := 0;
      events := [];
    }

    /** topCard: the top of the discard pile, None (a null pointer) when it is empty. */
    function TopCard(): (r: Option<Card>)
      reads this
      ensures r.None? <==> discardPile == []
      ensures r.Some? ==> r.value == Face(discardPile[|discardPile| - 1])
    {
      if discardPile == [] then None else Some(Face(Top(discardPile)))
    }

    /** numberOfCards: the size of every hand, seat by seat. */
    function NumberOfCards(): (r: seq<int>)
      reads this
      ensures |r| == |playerInfo| && forall p :: 0 <= p < |playerInfo| ==> r[p] == |playerInfo[p].hand|
    {
      seq(|playerInfo|, p requires 0 <= p < |playerInfo| reads this => |playerInfo[p].hand|)
    }

    /** addPlayer: the player is told the next seat number, and gets an empty record. */
    method AddPlayer(name: string) returns (r: Result<int>)
      requires Valid()
      modifies this`seats, this`names, this`playerInfo
      ensures Valid()
      ensures old(|seats|) >= MAX_NUMBER_OF_PLAYERS ==>
        r == Throws(OverflowError) && seats == old(seats) && names == old(names) && playerInfo == old(playerInfo)
      ensures old(|seats|) < MAX_NUMBER_OF_PLAYERS ==>
        r == Ok(old(|seats|)) &&
        seats == old(seats) + [Seat(old(|seats|), old(|seats|))] &&
        names == old(names) + [name] &&
        playerInfo == old(playerInfo) + [PlayerInfo([], 0)]
    {
      if |seats| >= MAX_NUMBER_OF_PLAYERS {
        return Throws(OverflowError);
      }
      var index := |seats|;
      seats := seats + [Seat(index, index)];
      names := names + [name];
      SeatNewPlayer(playerInfo);
      playerInfo := playerInfo + [PlayerInfo([], 0)];
      r := Ok(index);
    }

    /** shufflePlayers(permutation): the permutation is refused unless it is no
        longer than the number of players and every value is a seat. */
    method ShufflePlayers(perm: seq<int>) returns (st: Status)
      requires Valid()
      modifies this`seats, this`playerInfo
      ensures Valid()
      ensures !PermutationFits(old(|seats|), perm) ==>
        st == Thrown(OutOfRange) && seats == old(seats) && playerInfo == old(playerInfo)
      ensures PermutationFits(old(|seats|), perm) ==>
        st == Done &&
        seats == ShuffleCorrected(old(seats), perm) &&
        playerInfo == ApplySwaps(old(playerInfo), perm, 0)
    {
      if |perm| > |seats| {
        return Thrown(OutOfRange);
      }
      var i := 0;
      while i < |perm|
        invariant 0 <= i <= |perm|
        invariant forall k :: 0 <= k < i ==> 0 <= perm[k] < |seats|
      {
        if perm[i] < 0 || perm[i] >= |seats| {
          return Thrown(OutOfRange);
        }
        i := i + 1;
      }
      Reseat(perm);
      st := Done;
    }

    /** shufflePlayers(): a random permutation of the seats. */
    method ShufflePlayersRandomly()
      requires Valid()
      modifies this`seats, this`playerInfo, this`shuffles
      ensures Valid()
      ensures var perm := Shuffled(Everyone(old(|seats|)), Draws(seed, old(shuffles)), 0);
        PermutationFits(old(|seats|), perm) &&
        seats == ShuffleCorrected(old(seats), perm) &&
        playerInfo == ApplySwaps(old(playerInfo), perm, 0)
      ensures shuffles == old(shuffles) + 1
    {
      var perm := Shuffled(Everyone(|seats|), Draws(seed, shuffles), 0);
      ShuffledSeatsFit(|seats|, Draws(seed, shuffles));
      shuffles := shuffles + 1;
      Reseat(perm);
    }

    /** shufflePlayers_: seat i is exchanged with seat perm[i], for i in order, the
        records with them; then every player is told its new seat number. */
    method Reseat(perm: seq<int>)
      requires Valid() && PermutationFits(|seats|, perm)
      modifies this`seats, this`playerInfo
      ensures Valid()
      ensures seats == ShuffleCorrected(old(seats), perm)
      ensures playerInfo == ApplySwaps(old(playerInfo), perm, 0)
    {
      var players, info := SwapSeats(seats, playerInfo, perm);
      SwapsKeepPool(playerInfo, perm, 0);
      seats, playerInfo := Renumber(players), info;
    }

    method SetMessageQueueSizeLimit(m: int)
      modifies messageQueue
      ensures messageQueue.State() == WithLimit(old(messageQueue.State()), m)
    {
      messageQueue.SetLimit(m);
    }

    /** setRandomGeneratorSeed: the engine restarts its sequence of draws. */
    method SetRandomGeneratorSeed(s: int)
      modifies this`seed, this`shuffles
      ensures seed == s && shuffles == 0
    {
      seed := s;
      shuffles := 0;
    }

    /** setTurnsLimit and setSetsLimit; a limit of 0 means no limit. */
    method SetLimits(turns: nat, sets: nat)
      modifies this`turnsLimit, this`setsLimit
      ensures turnsLimit == turns && setsLimit == sets
    {
      turnsLimit := turns;
      setsLimit := sets;
    }

    /** clearHands: every hand, seat by seat, is put at the end of the deck. */
    method ClearHands()
      requires Valid()
      modifies this`deck, this`playerInfo
      ensures Valid()
      ensures deck == old(deck) + Concat(HandsOf(old(playerInfo)))
      ensures |playerInfo| == old(|playerInfo|)
      ensures forall q :: 0 <= q < |playerInfo| ==> playerInfo[q] == old(playerInfo[q]).(hand := [])
    {
      var pile, info := CollectHands(deck, discardPile, playerInfo);
      deck, playerInfo := pile, info;
    }

    /** moveToDeck: the hands, then the discard pile, go back to the deck, which
        then holds every card. */
    method MoveToDeck()
      requires Valid()
      modifies this`deck, this`discardPile, this`playerInfo
      ensures Valid()
      ensures deck == old(deck) + Concat(HandsOf(old(playerInfo))) + old(discardPile)
      ensures discardPile == []
      ensures |deck| == DECK_SIZE
      ensures |playerInfo| == old(|playerInfo|)
      ensures forall q :: 0 <= q < |playerInfo| ==> playerInfo[q] == old(playerInfo[q]).(hand := [])
    {
      ClearHands();
      deck := deck + discardPile;
      discardPile := [];
      PoolOfEmpties(HandsOf(playerInfo));
      assert |multiset(Ids(DECK_SIZE))| == DECK_SIZE;
    }

    /** shuffleDeck: the deck is put in the order the next run of draws picks. */
    method ShuffleDeck()
      requires Valid()
      modifies this`deck, this`shuffles
      ensures Valid()
      ensures deck == Shuffled(old(deck), Draws(seed, old(shuffles)), 0)
      ensures shuffles == old(shuffles) + 1
    {
      var shuffled := Shuffled(deck, Draws(seed, shuffles), 0);
      ShuffledIsPermutation(deck, Draws(seed, shuffles), 0);
      Reshuffled(deck, shuffled, discardPile, playerInfo);
      deck, shuffles := shuffled, shuffles + 1;
    }

    /** flushDiscardPile: with two or more cards on the discard pile, all but the
        top one go to the end of the deck, the top one stays, and the deck is
        shuffled. */
    method FlushDiscardPile()
      requires Valid()
      modifies this`deck, this`discardPile, this`shuffles
      ensures Valid()
      ensures |old(discardPile)| < 2 ==>
        deck == old(deck) && discardPile == old(discardPile) && shuffles == old(shuffles)
      ensures |old(discardPile)| >= 2 ==>
        discardPile == [Top(old(discardPile))] &&
        deck == Shuffled(old(deck) + old(discardPile)[..|old(discardPile)| - 1], Draws(seed, old(shuffles)), 0) &&
        shuffles == old(shuffles) + 1
    {
      if |discardPile| < 2 {
        return;
      }
      var last := |discardPile| - 1;
      Flushing(deck, discardPile, playerInfo);
      deck := deck + discardPile[..last];
      discardPile := Swap(discardPile, last, 0);
      discardPile := discardPile[..1];
      ShuffleDeck();
    }

    /** countHandScore: the sum of the scores of the cards in the hand. */
    method CountHandScore(q: int) returns (sum: int)
      requires 0 <= q < |playerInfo|
      ensures sum == HandValue(playerInfo, q)
    {
      var hand := playerInfo[q].hand;
      sum := 0;
      var i := 0;
      while i < |hand|
        invariant 0 <= i <= |hand|
        invariant sum == HandScore(Faces(hand[..i]))
      {
        assert Faces(hand[..i + 1])[..i] == Faces(hand[..i]);
        sum := sum + Face(hand[i]).Score();
        i := i + 1;
      }
      assert hand[..i] == hand;
    }

    /** The default of getCardsFromDeck: the last m cards of the deck, topmost
        first, go to the end of the hand of player p. */
    method TakeFromTop(p: int, m: int) returns (r: Result<seq<CardId>>)
      requires Valid() && 0 <= p < |playerInfo| && 0 <= m <= |deck|
      modifies this`deck, this`playerInfo
      ensures Valid()
      ensures GivenFrom(old(deck), m, [], r, deck)
      ensures Received(old(playerInfo), p, r, playerInfo)
    {
      var cut := |deck| - m;
      var given := Reversed(deck[cut..]);
      ReversedKeepsMultiset(deck[cut..]);
      assert deck == deck[..cut] + deck[cut..];
      GiveCards(deck, discardPile, playerInfo, p, deck[..cut], given);
      deck := deck[..cut];
      playerInfo := playerInfo[p := playerInfo[p].(hand := playerInfo[p].hand + given)];
      r := Ok(given);
    }

    /** The override of getCardsFromDeck: the chosen cards are accepted when there
        are m of them and exactly m cards leave the deck when they are filtered
        out of it. */
    method TakeChosen(p: int, m: int, chosen: seq<CardId>) returns (r: Result<seq<CardId>>)
      requires Valid() && 0 <= p < |playerInfo| && 0 <= m <= |deck| && chosen != []
      modifies this`deck, this`playerInfo
      ensures Valid()
      ensures GivenFrom(old(deck), m, chosen, r, deck)
      ensures Received(old(playerInfo), p, r, playerInfo)
    {
      ConservedFacts(deck, discardPile, playerInfo);
      ChosenAccepted(deck, chosen);
      if |chosen| != m {
        return Throws(LengthError);
      }
      var newDeck := Without(deck, chosen);
      if |newDeck| != |deck| - m {
        return Throws(DomainError);
      }
      GiveCards(deck, discardPile, playerInfo, p, newDeck, chosen);
      deck := newDeck;
      playerInfo := playerInfo[p := playerInfo[p].(hand := playerInfo[p].hand + chosen)];
      r := Ok(chosen);
    }

    /** getCardsFromDeck(player, n) with `chosen` the answer of chooseCards (empty
        for the default): a request of zero gives nothing; a request the piles
        cannot meet, a negative one included, becomes a request for all cards but
        the top of the discard pile. */
    method GetCardsFromDeck(p: int, n: int, chosen: seq<CardId>) returns (r: Result<seq<CardId>>)
      requires Valid() && 0 <= p < |playerInfo| && |deck| + |discardPile| >= 1
      modifies this`deck, this`discardPile, this`playerInfo, this`shuffles, this`events
      ensures Valid()
      ensures var m := Requested(n, old(|deck| + |discardPile|));
        m == 0 ==> r == Ok([]) && unchanged(this)
      ensures var m := Requested(n, old(|deck| + |discardPile|));
        m > 0 ==> GivenFrom(Refilled(old(deck), old(discardPile), Draws(seed, old(shuffles)), m), m, chosen, r, deck)
      ensures var m := Requested(n, old(|deck| + |discardPile|));
        m > 0 ==> Received(old(playerInfo), p, r, playerInfo)
      ensures var flushed := Requested(n, old(|deck| + |discardPile|)) > old(|deck|);
        discardPile == (if flushed then [Top(old(discardPile))] else old(discardPile)) &&
        shuffles == old(shuffles) + (if flushed then 1 else 0) &&
        events == old(events) + (if flushed then [HandleDeckShuffled] else [])
    {
      if n == 0 {
        return Ok([]);
      }
      var m := n;
      if n < 0 || n > |deck| + |discardPile| - 1 {
        // the recursive call for all but the top of the discard pile
        m := |deck| + |discardPile| - 1;
        if m == 0 {
          return Ok([]);
        }
      }
      r := HandOut(p, m, chosen);
    }

    /** With more cards asked for than the deck holds, the discard pile is flushed
        into it and handleDeckShuffled announced. */
    method Refill(m: int)
      requires Valid() && 0 < m <= |deck| + |discardPile| - 1
      modifies this`deck, this`discardPile, this`shuffles, this`events
      ensures Valid() && m <= |deck|
      ensures deck == Refilled(old(deck), old(discardPile), Draws(seed, old(shuffles)), m)
      ensures var flushed := m > old(|deck|);
        discardPile == (if flushed then [Top(old(discardPile))] else old(discardPile)) &&
        shuffles == old(shuffles) + (if flushed then 1 else 0) &&
        events == old(events) + (if flushed then [HandleDeckShuffled] else [])
    {
      if m > |deck| {
        FlushDiscardPile();
        events := events + [HandleDeckShuffled];
      }
    }

    /** The part of getCardsFromDeck after the size checks. */
    method HandOut(p: int, m: int, chosen: seq<CardId>) returns (r: Result<seq<CardId>>)
      requires Valid() && 0 <= p < |playerInfo| && 0 < m <= |deck| + |discardPile| - 1
      modifies this`deck, this`discardPile, this`playerInfo, this`shuffles, this`events
      ensures Valid()
      ensures GivenFrom(Refilled(old(deck), old(discardPile), Draws(seed, old(shuffles)), m), m, chosen, r, deck)
      ensures Received(old(playerInfo), p, r, playerInfo)
      ensures var flushed := m > old(|deck|);
        discardPile == (if flushed then [Top(old(discardPile))] else old(discardPile)) &&
        shuffles == old(shuffles) + (if flushed then 1 else 0) &&
        events == old(events) + (if flushed then [HandleDeckShuffled] else [])
    {
      Refill(m);
      ghost var refilled := deck;
      if chosen == [] {
        r := TakeFromTop(p, m);
      } else {
        r := TakeChosen(p, m, chosen);
      }
      assert GivenFrom(refilled, m, chosen, r, deck);
    }

    /** dealCards: the cards getCardsFromDeck gives (`given`, handed to the
        player's receiveCards when there are any), and whether they are all the n
        cards asked for. */
    method DealCards(p: int, n: int, chosen: seq<CardId>) returns (r: Result<bool>, given: Result<seq<CardId>>)
      requires Valid() && 0 <= p < |playerInfo| && |deck| + |discardPile| >= 1
      modifies this`deck, this`discardPile, this`playerInfo, this`shuffles, this`events
      ensures Valid()
      ensures var m := Requested(n, old(|deck| + |discardPile|));
        m == 0 ==> given == Ok([]) && deck == old(deck) && playerInfo == old(playerInfo)
      ensures var m := Requested(n, old(|deck| + |discardPile|));
        m > 0 ==> GivenFrom(Refilled(old(deck), old(discardPile), Draws(seed, old(shuffles)), m), m, chosen, given, deck)
      ensures var m := Requested(n, old(|deck| + |discardPile|));
        m > 0 ==> Received(old(playerInfo), p, given, playerInfo)
      ensures var flushed := Requested(n, old(|deck| + |discardPile|)) > old(|deck|);
        discardPile == (if flushed then [Top(old(discardPile))] else old(discardPile)) &&
        shuffles == old(shuffles) + (if flushed then 1 else 0) &&
        events == old(events) + (if flushed then [HandleDeckShuffled] else [])
      ensures given.Throws? ==> r == Throws(given.exception)
      ensures given.Ok? ==> r.Ok? && (r.value <==> 0 < n <= old(|deck| + |discardPile|) - 1)
    {
      ghost var deck0, discard0 := deck, discardPile;
      ghost var m := Requested(n, |deck| + |discardPile|);
      ghost var draw := Draws(seed, shuffles);
      given := GetCardsFromDeck(p, n, chosen);
      if m > 0 {
        GivenFacts(Refilled(deck0, discard0, draw, m), m, chosen, given, deck);
      }
      if given.Throws? {
        return Throws(given.exception), given;
      }
      if given.value == [] {
        return Ok(false), given;
      }
      r := Ok(|given.value| == n);
    }

    /** placeFirstCard with `choice(k)` the answer of chooseFirstCard at the k-th
        attempt (None for the default): the cards TurnedOver turns over stay on
        the discard pile, which, if the loop completed with more than one card on
        it, is flushed back into the deck. The deck always holds a card that is
        not a WildDraw4 here, since at most four of its cards are. */
    method PlaceFirstCard(choice: nat -> Option<CardId>) returns (st: Status)
      requires Valid() && |deck| > 4
      requires HasPlayable(deck)
      modifies this`deck, this`discardPile, this`shuffles
      ensures Valid()
      ensures var r := TurnedOver(old(deck), old(discardPile), choice, 0);
        st == r.2 &&
        if st == Done && |r.1| > 1 then
          discardPile == [Top(r.1)] && shuffles == old(shuffles) + 1 &&
          deck == Shuffled(r.0 + r.1[..|r.1| - 1], Draws(seed, old(shuffles)), 0)
        else
          deck == r.0 && discardPile == r.1 && shuffles == old(shuffles)
      ensures st.Thrown? ==> st.exception == DomainError
      ensures st == Done ==> |discardPile| == 1 && Face(discardPile[0]).value != WILD_DRAW4
    {
      var pile, discard;
      pile, discard, st := TurnOverFirstCard(deck, discardPile, playerInfo, choice);
      TurnedOverWildDraw4s(old(deck), old(discardPile), choice, 0);
      deck, discardPile := pile, discard;
      if st == Done && |discardPile| > 1 {
        FlushDiscardPile();
      }
    }

    /** The state of a set in progress for the rotation `rot` (set_players): the
        discard pile has a top card, the active player is in the rotation, and
        the set score holds the hands of the players who have left it. */
    ghost predicate InSet(rot: seq<int>)
      reads this`playerInfo, this`seats, this`names, this`deck, this`discardPile
      reads this`activePlayerIndex, this`currentSetScore
    {
      Valid() && discardPile != [] && Rotation(rot, |playerInfo|) && activePlayerIndex in rot &&
      currentSetScore == OutsideScore(playerInfo, rot, |playerInfo|)
    }

    /** dealCards(player, INITIAL_CARDS_NUMBER) from a deck that holds enough:
        the top seven cards go to the player's hand. */
    method DealInitialCards(q: int)
      requires Valid() && discardPile == [] && |deck| > INITIAL_CARDS_NUMBER && 0 <= q < |playerInfo|
      modifies this`deck, this`discardPile, this`playerInfo, this`shuffles, this`events
      ensures Valid() && discardPile == [] && events == old(events)
      ensures var cut := old(|deck|) - INITIAL_CARDS_NUMBER;
        deck == old(deck[..cut]) &&
        playerInfo == old(playerInfo[q := playerInfo[q].(hand := playerInfo[q].hand + Reversed(deck[cut..]))])
    {
      ghost var deck0 := deck;
      ghost var draw := Draws(seed, shuffles);
      assert Requested(INITIAL_CARDS_NUMBER, |deck| + |discardPile|) == INITIAL_CARDS_NUMBER;
      assert Refilled(deck0, discardPile, draw, INITIAL_CARDS_NUMBER) == deck0;
      var ok, given := DealCards(q, INITIAL_CARDS_NUMBER, []);
      GivenFacts(deck0, INITIAL_CARDS_NUMBER, [], given, deck);
    }

    /** The initial deal of runSet_: every player, in seat order, gets seven cards
        from the full deck, the top seven first (the first player getting them
        topmost first), and the rest of the deck stays. */
    method DealHands()
      requires Valid() && discardPile == [] && |deck| == DECK_SIZE
      requires forall q :: 0 <= q < |playerInfo| ==> playerInfo[q].hand == []
      modifies this`deck, this`discardPile, this`playerInfo, this`shuffles, this`events
      ensures Valid() && discardPile == [] && |playerInfo| == old(|playerInfo|)
      ensures deck == old(deck)[..DECK_SIZE - INITIAL_CARDS_NUMBER * |playerInfo|]
      ensures forall q :: 0 <= q < |playerInfo| ==>
        playerInfo[q] == old(playerInfo[q]).(hand := InitialHand(old(deck), q))
      ensures events == old(events) + DealtCalls(|playerInfo|)
    {
      ghost var deck0, info0 := deck, playerInfo;
      DealtNone(info0, deck0);
      var q := 0;
      while q < |playerInfo|
        invariant 0 <= q <= |playerInfo| == |info0|
        invariant Valid() && discardPile == [] && |deck| == Undealt(q) && deck <= deck0
        invariant playerInfo == Dealt(info0, deck0, q)
        invariant events == old(events) + DealtCalls(q)
      {
        DealNextHand(q, deck0, info0, old(events));
        q := q + 1;
      }
      UndealtIs(q);
    }

    /** One step of the initial deal: player q gets the next seven cards. */
    method DealNextHand(q: nat, ghost deck0: seq<CardId>, ghost info0: seq<PlayerInfo>, ghost events0: seq<Call>)
      requires Valid() && discardPile == [] && q < |playerInfo| == |info0| && |deck0| == DECK_SIZE
      requires events == events0 + DealtCalls(q)
      requires |deck| == Undealt(q) && deck <= deck0
      requires playerInfo == Dealt(info0, deck0, q)
      modifies this`deck, this`discardPile, this`playerInfo, this`shuffles, this`events
      ensures Valid() && discardPile == []
      ensures |deck| == Undealt(q + 1) && deck <= deck0
      ensures playerInfo == Dealt(info0, deck0, q + 1)
      ensures events == events0 + DealtCalls(q + 1)
    {
      ghost var before, deck1 := playerInfo, deck;
      UndealtLeaves(q);
      DealInitialCards(q);
      events := events + [HandlePlayerDealt(q, INITIAL_CARDS_NUMBER)];
      DealtNext(info0, deck0, q, before, deck1);
      DealtCallsStep(events0, q);
    }

    /** The start of runSet_ up to the deal: the set counters are reset, all
        cards go back to the deck and the deck is shuffled. */
    method PrepareSet()
      requires Valid()
      modifies this`deck, this`discardPile, this`playerInfo, this`shuffles, this`events
      modifies this`activePlayerIndex, this`currentSetScore, this`currentDirection
      modifies this`currentTurnNumber, this`currentSetNumber
      ensures Valid() && discardPile == [] && |deck| == DECK_SIZE
      ensures activePlayerIndex == 0 && currentSetScore == 0 && currentTurnNumber == 0
      ensures currentDirection == Direct && currentSetNumber == old(currentSetNumber) + 1
      ensures |playerInfo| == old(|playerInfo|)
      ensures forall q :: 0 <= q < |playerInfo| ==> playerInfo[q] == old(playerInfo[q]).(hand := [])
      ensures events == old(events) + [HandleSetStarted(currentSetNumber), HandleDeckShuffled]
    {
      GatherAndShuffle();
      activePlayerIndex, currentSetScore, currentDirection, currentTurnNumber := 0, 0, Direct, 0;
      currentSetNumber := currentSetNumber + 1;
      events := events + [HandleSetStarted(currentSetNumber), HandleDeckShuffled];
    }

    /** moveToDeck then shuffleDeck: the full deck, shuffled, with empty hands. */
    method GatherAndShuffle()
      requires Valid()
      modifies this`deck, this`discardPile, this`playerInfo, this`shuffles
      ensures Valid() && discardPile == [] && |deck| == DECK_SIZE
      ensures |playerInfo| == old(|playerInfo|)
      ensures forall q :: 0 <= q < |playerInfo| ==> playerInfo[q] == old(playerInfo[q]).(hand := [])
    {
      MoveToDeck();
      ShuffleDeck();
    }

    /** placeFirstCard with the default chooseFirstCard: the cards from the top
        of the deck down to the topmost one that is not a WildDraw4 are turned
        over; that card stays on the discard pile, and the WildDraw4s above it,
        with any cards the pile already held, go back into the deck, which is
        then shuffled. */
    method PlaceFirstCardByDefault()
      requires Valid() && |deck| > 4
      modifies this`deck, this`discardPile, this`shuffles
      ensures Valid()
      ensures var l := LastPlayable(old(deck));
        0 <= l && discardPile == [old(deck)[l]] && Face(discardPile[0]).value != WILD_DRAW4
      ensures var l := LastPlayable(old(deck));
        var back := old(discardPile) + Reversed(old(deck)[l + 1..]);
        if back == [] then deck == old(deck)[..l] && shuffles == old(shuffles)
        else deck == Shuffled(old(deck)[..l] + back, Draws(seed, old(shuffles)), 0) && shuffles == old(shuffles) + 1
    {
      ConservedFacts(deck, discardPile, playerInfo);
      ghost var k0 := SomeNotWildDraw4(deck);
      var byDefault: nat -> Option<CardId> := k => None;
      TurnedOverFirstPlayable(deck, discardPile, byDefault);
      var st := PlaceFirstCard(byDefault);
    }

    /** The first card of the set is placed and announced; a Wild on top lets the
        active player choose the colour, a Reverse turns the direction. */
    method OpenSet(d: Decisions)
      requires Valid() && |deck| > 4 && currentDirection == Direct
      modifies this`deck, this`discardPile, this`shuffles, this`events
      modifies this`currentDirection, this`currentColor
      ensures Valid() && |discardPile| == 1 && Face(discardPile[0]).value != WILD_DRAW4
      ensures var o := Opened(Face(discardPile[0]), old(currentColor), d.changeColor(currentSetNumber, 0), activePlayerIndex);
        currentColor == o.color && currentDirection == o.direction && events == old(events) + o.calls
    {
      PlaceFirstCardByDefault();
      AnnounceFirstCard(d);
    }

    /** The first card on the discard pile takes effect and is announced. */
    method AnnounceFirstCard(d: Decisions)
      requires |discardPile| == 1
      modifies this`events, this`currentDirection, this`currentColor
      ensures var o := Opened(Face(discardPile[0]), old(currentColor), d.changeColor(currentSetNumber, 0), activePlayerIndex);
        currentColor == o.color && currentDirection == o.direction && events == old(events) + o.calls
    {
      var o := Opened(Face(discardPile[0]), currentColor, d.changeColor(currentSetNumber, 0), activePlayerIndex);
      currentColor, currentDirection, events := o.color, o.direction, events + o.calls;
    }

    /** The deal and the first card of runSet_, on a freshly gathered deck. */
    method DealAndOpen(d: Decisions)
      requires Valid() && discardPile == [] && |deck| == DECK_SIZE && currentDirection == Direct
      requires forall q :: 0 <= q < |playerInfo| ==> playerInfo[q].hand == []
      modifies this`deck, this`discardPile, this`playerInfo, this`shuffles, this`events
      modifies this`currentDirection, this`currentColor
      ensures Valid() && |playerInfo| == old(|playerInfo|)
      ensures forall q :: 0 <= q < |playerInfo| ==>
        |playerInfo[q].hand| == INITIAL_CARDS_NUMBER && playerInfo[q].currentScore == old(playerInfo[q].currentScore)
      ensures |discardPile| == 1 && Face(discardPile[0]).value != WILD_DRAW4
      ensures var o := Opened(Face(discardPile[0]), old(currentColor), d.changeColor(currentSetNumber, 0), activePlayerIndex);
        currentColor == o.color && currentDirection == o.direction &&
        events == old(events) + DealtCalls(|playerInfo|) + o.calls
    {
      DealLeavesEnough(|playerInfo|);
      DealHands();
      InitialHandsSize(old(playerInfo), playerInfo, old(deck));
      OpenSet(d);
    }

    /** The preparation of runSet_: reset, deal, first card. */
    method StartSet(d: Decisions) returns (rot: seq<int>)
      requires Valid() && |seats| >= MIN_NUMBER_OF_PLAYERS
      modifies this`deck, this`discardPile, this`playerInfo, this`shuffles, this`events
      modifies this`activePlayerIndex, this`currentSetScore, this`currentDirection, this`currentColor
      modifies this`currentTurnNumber, this`currentSetNumber
      ensures InSet(rot) && rot == Everyone(|playerInfo|) && |rot| >= MIN_NUMBER_OF_PLAYERS
      ensures activePlayerIndex == 0 && currentSetScore == 0 && currentTurnNumber == 0
      ensures currentSetNumber == old(currentSetNumber) + 1
      ensures |playerInfo| == old(|playerInfo|)
      ensures forall q :: 0 <= q < |playerInfo| ==>
        |playerInfo[q].hand| == INITIAL_CARDS_NUMBER && playerInfo[q].currentScore == old(playerInfo[q].currentScore)
      ensures |discardPile| == 1 && Face(discardPile[0]).value != WILD_DRAW4
      ensures var o := Opened(Face(discardPile[0]), old(currentColor), d.changeColor(currentSetNumber, 0), 0);
        currentColor == o.color && currentDirection == o.direction &&
        events == old(events) + [HandleSetStarted(currentSetNumber), HandleDeckShuffled] +
          DealtCalls(|playerInfo|) + o.calls
    {
      PrepareSet();
      DealAndOpen(d);
      rot := Everyone(|playerInfo|);
      OutsideOfEveryone(playerInfo, rot, |playerInfo|);
    }

    /** dealCards(player, n) with the default chooseCards during a set: the
        player's hand grows by what getCardsFromDeck gives, the top card stays. */
    method DrawCards(p: int, n: int) returns (drawn: seq<CardId>)
      requires Valid() && 0 <= p < |playerInfo| && discardPile != [] && n > 0
      modifies this`deck, this`discardPile, this`playerInfo, this`shuffles, this`events
      ensures Valid() && discardPile != [] && Top(discardPile) == old(Top(discardPile))
      ensures |drawn| == Requested(n, old(|deck| + |discardPile|))
      ensures var m := Requested(n, old(|deck| + |discardPile|));
        GivenFrom(Refilled(old(deck), old(discardPile), Draws(seed, old(shuffles)), m), m, [], Ok(drawn), deck)
      ensures Drew(old(deck), old(discardPile), Draws(seed, old(shuffles)), Requested(n, old(|deck| + |discardPile|)),
        drawn, deck, discardPile)
      ensures playerInfo == old(playerInfo)[p := old(playerInfo[p]).(hand := old(playerInfo[p].hand) + drawn)]
      ensures events == old(events) + (if shuffles > old(shuffles) then [HandleDeckShuffled] else [])
    {
      drawn := DealDefault(p, n);
      DrewFromGiven(old(deck), old(discardPile), Draws(seed, old(shuffles)), |drawn|, drawn, deck, discardPile);
    }

    /** dealCards(player, n) with the default chooseCards, as getCardsFromDeck
        gives its cards; DrawCards restates the outcome as a Drew. */
    method DealDefault(p: int, n: int) returns (drawn: seq<CardId>)
      requires Valid() && 0 <= p < |playerInfo| && discardPile != [] && n > 0
      modifies this`deck, this`discardPile, this`playerInfo, this`shuffles, this`events
      ensures Valid() && discardPile != [] && Top(discardPile) == old(Top(discardPile))
      ensures |drawn| == Requested(n, old(|deck| + |discardPile|))
      ensures var m := Requested(n, old(|deck| + |discardPile|));
        GivenFrom(Refilled(old(deck), old(discardPile), Draws(seed, old(shuffles)), m), m, [], Ok(drawn), deck)
      ensures discardPile == (if |drawn| > old(|deck|) then [Top(old(discardPile))] else old(discardPile))
      ensures playerInfo == old(playerInfo)[p := old(playerInfo[p]).(hand := old(playerInfo[p].hand) + drawn)]
      ensures events == old(events) + (if shuffles > old(shuffles) then [HandleDeckShuffled] else [])
    {
      ghost var deck0, info0 := deck, playerInfo;
      ghost var m := Requested(n, |deck| + |discardPile|);
      ghost var refilled := Refilled(deck0, discardPile, Draws(seed, shuffles), m);
      var ok, given := DealCards(p, n, []);
      DrawnFacts(refilled, m, given, deck, info0, p, playerInfo);
      FlushedFacts(old(discardPile), discardPile, old(shuffles), shuffles, old(events), events, m > |deck0|);
      drawn := given.value;
    }

    /** DrawCards for the active player during a set, which keeps the set going. */
    method DrawInSet(rot: seq<int>, n: int) returns (drawn: seq<CardId>)
      requires InSet(rot) && n > 0
      modifies this`deck, this`discardPile, this`playerInfo, this`shuffles, this`events
      ensures InSet(rot) && Top(discardPile) == old(Top(discardPile))
      ensures |drawn| == Requested(n, old(|deck| + |discardPile|))
      ensures Drew(old(deck), old(discardPile), Draws(seed, old(shuffles)), |drawn|, drawn, deck, discardPile)
      ensures var a := activePlayerIndex;
        playerInfo == old(playerInfo)[a := old(playerInfo[a]).(hand := old(playerInfo[a].hand) + drawn)]
      ensures events == old(events) + (if shuffles > old(shuffles) then [HandleDeckShuffled] else [])
    {
      var a := activePlayerIndex;
      drawn := DrawCards(a, n);
      OutsideFrame(old(playerInfo), playerInfo, rot, |playerInfo|);
    }

    /** A player hit by an action card draws its penalty, if any; the draw is
        announced and the turn passes on. */
    method DrawAndSkip(rot: seq<int>, penalty: nat) returns (drawn: seq<CardId>)
      requires InSet(rot)
      modifies this`deck, this`discardPile, this`playerInfo, this`shuffles, this`events, this`activePlayerIndex
      ensures InSet(rot) && Top(discardPile) == old(Top(discardPile))
      ensures var a := old(activePlayerIndex);
        |drawn| == (if penalty == 0 then 0 else Requested(penalty, old(|deck| + |discardPile|))) &&
        playerInfo == old(playerInfo)[a := old(playerInfo[a]).(hand := old(playerInfo[a].hand) + drawn)] &&
        activePlayerIndex == NextPlayerIndex(rot, a, currentDirection) &&
        events == old(events) + (if shuffles > old(shuffles) then [HandleDeckShuffled] else []) +
          [HandlePlayerDrewAndSkip(a, penalty)]
      ensures Drew(old(deck), old(discardPile), Draws(seed, old(shuffles)), |drawn|, drawn, deck, discardPile)
    {
      var a := activePlayerIndex;
      drawn := [];
      if penalty > 0 {
        drawn := DrawInSet(rot, penalty);
      } else {
        assert playerInfo[a].hand + [] == playerInfo[a].hand;
        DrewNothing(deck, discardPile, Draws(seed, shuffles));
      }
      events := events + [HandlePlayerDrewAndSkip(a, penalty)];
      activePlayerIndex := NextPlayerIndex(rot, a, currentDirection);
    }

    /** The active player's move: when canPlaceCard holds it is asked for a card;
        otherwise it draws one more card, when the piles hold one besides the top
        of the discard pile, and is asked whether to play it, and the draw is
        announced. `skip` when it plays nothing. */
    method Ask(rot: seq<int>, d: Decisions) returns (claim: Option<Card>, skip: bool, drawn: seq<CardId>)
      requires InSet(rot)
      modifies this`deck, this`discardPile, this`playerInfo, this`shuffles, this`events
      ensures InSet(rot) && Top(discardPile) == old(Top(discardPile))
      ensures var a := activePlayerIndex;
        playerInfo == old(playerInfo)[a := old(playerInfo[a]).(hand := old(playerInfo[a].hand) + drawn)]
      ensures var a := activePlayerIndex;
        if CanPlaceCard(Faces(old(playerInfo[a].hand)), Face(Top(old(discardPile))), currentColor) then
          claim == d.playCard(currentSetNumber, currentTurnNumber) && !skip && drawn == [] && events == old(events) &&
          deck == old(deck) && discardPile == old(discardPile) && shuffles == old(shuffles)
        else if old(|deck| + |discardPile|) > 1 then
          |drawn| == 1 &&
          skip == !d.drawAdditionalCard(currentSetNumber, currentTurnNumber, Face(drawn[0])) &&
          claim == (if skip then None else Some(Face(drawn[0]))) &&
          events == old(events) + (if shuffles > old(shuffles) then [HandleDeckShuffled] else []) +
            [HandlePlayerDrewAnotherCard(a)]
        else
          skip && claim == None && drawn == [] && events == old(events) + [HandlePlayerDrewAnotherCard(a)]
      ensures Drew(old(deck), old(discardPile), Draws(seed, old(shuffles)), |drawn|, drawn, deck, discardPile)
    {
      var a := activePlayerIndex;
      drawn := [];
      assert playerInfo[a].hand + [] == playerInfo[a].hand;
      if CanPlaceCard(Faces(playerInfo[a].hand), Face(Top(discardPile)), currentColor) {
        DrewNothing(deck, discardPile, Draws(seed, shuffles));
        return d.playCard(currentSetNumber, currentTurnNumber), false, [];
      }
      claim, skip, drawn := DrawAnother(rot, d);
    }

    /** The card a player who cannot play draws, announced by c: one card when
        the deck and the discard pile hold one besides the top of the discard
        pile, none otherwise. The player's decision on the card depends on the
        card alone, so announcing the draw before the decision is taken gives
        the calls of the source. */
    method DrawOne(rot: seq<int>, c: Call) returns (drawn: seq<CardId>)
      requires InSet(rot)
      modifies this`deck, this`discardPile, this`playerInfo, this`shuffles, this`events
      ensures InSet(rot) && Top(discardPile) == old(Top(discardPile))
      ensures |drawn| == (if old(|deck| + |discardPile|) > 1 then 1 else 0)
      ensures Drew(old(deck), old(discardPile), Draws(seed, old(shuffles)), |drawn|, drawn, deck, discardPile)
      ensures var a := activePlayerIndex;
        playerInfo == old(playerInfo)[a := old(playerInfo[a]).(hand := old(playerInfo[a].hand) + drawn)]
      ensures drawn == [] ==> events == old(events) + [c]
      ensures var shuffled := if shuffles > old(shuffles) then [HandleDeckShuffled] else [];
        drawn != [] ==> events == old(events) + shuffled + [c]
    {
      if |deck| + |discardPile| > 1 {
        drawn := DrawInSet(rot, 1);
        events := events + [c];
      } else {
        drawn := [];
        assert playerInfo[activePlayerIndex].hand + [] == playerInfo[activePlayerIndex].hand;
        DrewNothing(deck, discardPile, Draws(seed, shuffles));
        events := events + [c];
      }
    }

    /** A player who cannot play draws one more card, when the piles hold one
        besides the top of the discard pile, and is asked whether to play it;
        the draw is announced either way. */
    method DrawAnother(rot: seq<int>, d: Decisions) returns (claim: Option<Card>, skip: bool, drawn: seq<CardId>)
      requires InSet(rot)
      modifies this`deck, this`discardPile, this`playerInfo, this`shuffles, this`events
      ensures InSet(rot) && Top(discardPile) == old(Top(discardPile))
      ensures var a := activePlayerIndex;
        playerInfo == old(playerInfo)[a := old(playerInfo[a]).(hand := old(playerInfo[a].hand) + drawn)]
      ensures var a := activePlayerIndex;
        if old(|deck| + |discardPile|) > 1 then
          |drawn| == 1 &&
          skip == !d.drawAdditionalCard(currentSetNumber, currentTurnNumber, Face(drawn[0])) &&
          claim == (if skip then None else Some(Face(drawn[0]))) &&
          events == old(events) + (if shuffles > old(shuffles) then [HandleDeckShuffled] else []) +
            [HandlePlayerDrewAnotherCard(a)]
        else
          skip && claim == None && drawn == [] && events == old(events) + [HandlePlayerDrewAnotherCard(a)]
      ensures Drew(old(deck), old(discardPile), Draws(seed, old(shuffles)), |drawn|, drawn, deck, discardPile)
    {
      drawn := DrawOne(rot, HandlePlayerDrewAnotherCard(activePlayerIndex));
      if drawn == [] || !d.drawAdditionalCard(currentSetNumber, currentTurnNumber, Face(drawn[0])) {
        claim, skip := None, true;
      } else {
        claim, skip := Some(Face(drawn[0])), false;
      }
    }

    /** A disqualified player: its hand score is added to the set score, it
        leaves the rotation, the disqualification is announced, and the turn
        passes to the player who would have been next. */
    method Disqualify(rot: seq<int>, claim: Option<Card>) returns (rest: seq<int>)
      requires InSet(rot) && |rot| >= MIN_NUMBER_OF_PLAYERS
      modifies this`activePlayerIndex, this`currentSetScore, this`events
      ensures InSet(rest) && rest == RemovePlayer(rot, old(activePlayerIndex))
      ensures var a := old(activePlayerIndex);
        a !in rest && activePlayerIndex == NextPlayerIndex(rot, a, currentDirection) &&
        currentSetScore == old(currentSetScore) + HandValue(playerInfo, a) &&
        events == old(events) + [HandlePlayerDisqualified(a, HandValue(playerInfo, a), claim)]
    {
      var a := activePlayerIndex;
      DisqualifyKeepsSet(playerInfo, rot, a, currentDirection, currentSetScore);
      var score := CountHandScore(a);
      var next := NextPlayerIndex(rot, a, currentDirection);
      rest := RemovePlayer(rot, a);
      currentSetScore, events := currentSetScore + score, events + [HandlePlayerDisqualified(a, score, claim)];
      activePlayerIndex := next;
    }

    /** The k-th card of the hand of player a goes onto the discard pile. */
    method Discard(a: int, k: nat) returns (card: CardId)
      requires Valid() && 0 <= a < |playerInfo| && k < |playerInfo[a].hand|
      modifies this`discardPile, this`playerInfo
      ensures Valid() && card == old(playerInfo[a].hand[k]) && discardPile == old(discardPile) + [card]
      ensures playerInfo == old(playerInfo)[a := old(playerInfo[a]).(hand := RemoveAt(old(playerInfo[a].hand), k))]
    {
      card := playerInfo[a].hand[k];
      LayFromHand(deck, discardPile, playerInfo, a, k);
      discardPile := discardPile + [card];
      playerInfo := playerInfo[a := playerInfo[a].(hand := RemoveAt(playerInfo[a].hand, k))];
    }

    /** The k-th card of the active player's hand goes onto the discard pile;
        `emptied` when it was the last one. */
    method LayCard(rot: seq<int>, k: nat) returns (card: CardId, emptied: bool)
      requires InSet(rot) && k < |playerInfo[activePlayerIndex].hand|
      modifies this`discardPile, this`playerInfo
      ensures InSet(rot)
      ensures var a := activePlayerIndex;
        card == old(playerInfo[a].hand[k]) && discardPile == old(discardPile) + [card] &&
        playerInfo == old(playerInfo)[a := old(playerInfo[a]).(hand := RemoveAt(old(playerInfo[a].hand), k))] &&
        (emptied <==> playerInfo[a].hand == [])
    {
      var a := activePlayerIndex;
      card := Discard(a, k);
      OutsideFrame(old(playerInfo), playerInfo, rot, |playerInfo|);
      emptied := playerInfo[a].hand == [];
    }

    /** The card just played takes effect (Played) and, unless the player's hand
        is empty, the turn passes on in the direction it leaves. */
    method FollowCard(rot: seq<int>, card: Card, emptied: bool, d: Decisions)
      requires InSet(rot)
      modifies this`currentColor, this`currentDirection, this`events, this`activePlayerIndex
      ensures InSet(rot)
      ensures var a := old(activePlayerIndex);
        var e := Played(card, old(currentColor), old(currentDirection),
          d.changeColor(currentSetNumber, currentTurnNumber), a, emptied);
        currentColor == e.color && currentDirection == e.direction && events == old(events) + e.calls &&
        activePlayerIndex == if emptied then a else NextPlayerIndex(rot, a, e.direction)
    {
      var a := activePlayerIndex;
      var e := Played(card, currentColor, currentDirection, d.changeColor(currentSetNumber, currentTurnNumber), a, emptied);
      TakeEffect(e, if emptied then a else NextPlayerIndex(rot, a, e.direction));
    }

    /** The effect of a turn takes hold: the colour and the direction it leaves,
        its Observer calls, and the player whose turn is next. */
    method TakeEffect(e: Effect, next: int)
      modifies this`currentColor, this`currentDirection, this`events, this`activePlayerIndex
      ensures currentColor == e.color && currentDirection == e.direction
      ensures events == old(events) + e.calls && activePlayerIndex == next
    {
      currentColor, currentDirection, events, activePlayerIndex := e.color, e.direction, events + e.calls, next;
    }

    /** The turn passes to the next player in the current direction. */
    method PassTurn(rot: seq<int>)
      requires InSet(rot)
      modifies this`activePlayerIndex
      ensures InSet(rot) && activePlayerIndex == NextPlayerIndex(rot, old(activePlayerIndex), currentDirection)
    {
      activePlayerIndex := NextPlayerIndex(rot, activePlayerIndex, currentDirection);
    }

    /** One turn of runSet_ after the turn is counted. When the action of the top
        card applies and it is a Draw2, a Skip or a WildDraw4, the active player
        draws its penalty (the cards `drawn`), the draw is announced, the turn
        passes on and the next turn applies no action. Otherwise the active
        player moves (Move): it keeps its place or is disqualified, and after a
        disqualification no action applies. The set is `over` when a single
        player is left or the active player's hand is empty; the scores do not
        change during a set. */
    method PlayTurn(rot: seq<int>, apply: bool, d: Decisions) returns (rest: seq<int>, applyNext: bool, over: bool, ghost drawn: seq<CardId>)
      requires InSet(rot) && |rot| >= MIN_NUMBER_OF_PLAYERS
      modifies this`deck, this`discardPile, this`playerInfo, this`shuffles, this`events
      modifies this`activePlayerIndex, this`currentSetScore, this`currentColor, this`currentDirection
      ensures InSet(rest) && ScoresOf(playerInfo) == old(ScoresOf(playerInfo))
      ensures forall q :: q in rest ==> q in rot
      ensures over ==> |rest| == 1 || playerInfo[activePlayerIndex].hand == []
      ensures !over ==> |rest| >= MIN_NUMBER_OF_PLAYERS
      ensures var a, hit := old(activePlayerIndex), Penalty(Face(old(Top(discardPile))));
        apply && hit.Some? ==>
          rest == rot && !applyNext && !over && Top(discardPile) == old(Top(discardPile)) &&
          currentColor == old(currentColor) && currentDirection == old(currentDirection) &&
          currentSetScore == old(currentSetScore) &&
          |drawn| == (if hit.value == 0 then 0 else Requested(hit.value, old(|deck| + |discardPile|))) &&
          Drew(old(deck), old(discardPile), Draws(seed, old(shuffles)), |drawn|, drawn, deck, discardPile) &&
          playerInfo == old(playerInfo)[a := old(playerInfo[a]).(hand := old(playerInfo[a].hand) + drawn)] &&
          activePlayerIndex == NextPlayerIndex(rot, a, currentDirection) &&
          events == old(events) + (if shuffles > old(shuffles) then [HandleDeckShuffled] else []) +
            [HandlePlayerDrewAndSkip(a, hit.value)]
      ensures !(apply && Penalty(Face(old(Top(discardPile)))).Some?) ==>
        (rest == rot || rest == RemovePlayer(rot, old(activePlayerIndex))) && (rest != rot ==> !applyNext)
    {
      var a := activePlayerIndex;
      var penalty := Penalty(Face(Top(discardPile)));
      if apply && penalty.Some? {
        drawn := DrawAndSkip(rot, penalty.value);
        HandKeepsScores(old(playerInfo), a, old(playerInfo[a].hand) + drawn);
        return rot, false, false, drawn;
      }
      drawn := [];
      rest, applyNext, over := Move(rot, d);
    }

    /** The active player's move: it plays, draws or skips (Ask), and then passes
        the turn or has its claim judged (SkipOrJudge). */
    method Move(rot: seq<int>, d: Decisions) returns (rest: seq<int>, applyNext: bool, over: bool)
      requires InSet(rot) && |rot| >= MIN_NUMBER_OF_PLAYERS
      modifies this`deck, this`discardPile, this`playerInfo, this`shuffles, this`events
      modifies this`activePlayerIndex, this`currentSetScore, this`currentColor, this`currentDirection
      ensures InSet(rest) && ScoresOf(playerInfo) == old(ScoresOf(playerInfo))
      ensures forall q :: q in rest ==> q in rot
      ensures over ==> |rest| == 1 || playerInfo[activePlayerIndex].hand == []
      ensures !over ==> |rest| >= MIN_NUMBER_OF_PLAYERS
      ensures rest == rot || rest == RemovePlayer(rot, old(activePlayerIndex))
      ensures rest != rot ==> !applyNext
    {
      var a := activePlayerIndex;
      var claim, skip, drawn := Ask(rot, d);
      HandKeepsScores(old(playerInfo), a, old(playerInfo[a].hand) + drawn);
      rest, applyNext, over := SkipOrJudge(rot, claim, skip, d, Snap());
    }

    /** After Ask: a player who skips passes the turn, and the next turn applies
        no action card; otherwise the claimed card is judged. */
    method SkipOrJudge(rot: seq<int>, claim: Option<Card>, skip: bool, d: Decisions, ghost s: Snapshot)
      returns (rest: seq<int>, applyNext: bool, over: bool)
      requires InSet(rot) && |rot| >= MIN_NUMBER_OF_PLAYERS && s == Snap()
      modifies this`discardPile, this`playerInfo, this`events
      modifies this`activePlayerIndex, this`currentSetScore, this`currentColor, this`currentDirection
      ensures InSet(rest) && ScoresOf(playerInfo) == old(ScoresOf(playerInfo))
      ensures forall q :: q in rest ==> q in rot
      ensures over ==> |rest| == 1 || playerInfo[activePlayerIndex].hand == []
      ensures !over ==> |rest| >= MIN_NUMBER_OF_PLAYERS
      ensures skip ==>
        rest == rot && !applyNext && !over && playerInfo == s.info && events == s.events &&
        discardPile == s.discard && currentColor == s.color && currentDirection == s.direction &&
        currentSetScore == s.setScore && activePlayerIndex == NextPlayerIndex(rot, s.active, s.direction)
      ensures !skip ==> Judged(s, rot, claim, d, rest, applyNext, over)
    {
      if skip {
        PassTurn(rot);
        return rot, false, false;
      }
      rest, applyNext, over := Judge(rot, claim, d);
    }

    /** The claimed card is tested (shouldDisqualify): a failed test disqualifies
        the player; otherwise the first card of its hand with the claimed colour
        and value is laid and takes effect. */
    method Judge(rot: seq<int>, claim: Option<Card>, d: Decisions) returns (rest: seq<int>, applyNext: bool, over: bool)
      requires InSet(rot) && |rot| >= MIN_NUMBER_OF_PLAYERS
      modifies this`discardPile, this`playerInfo, this`events
      modifies this`activePlayerIndex, this`currentSetScore, this`currentColor, this`currentDirection
      ensures InSet(rest) && ScoresOf(playerInfo) == old(ScoresOf(playerInfo))
      ensures forall q :: q in rest ==> q in rot
      ensures over ==> |rest| == 1 || playerInfo[activePlayerIndex].hand == []
      ensures !over ==> |rest| >= MIN_NUMBER_OF_PLAYERS
      ensures Judged(old(Snap()), rot, claim, d, rest, applyNext, over)
    {
      var a := activePlayerIndex;
      var hand := Faces(playerInfo[a].hand);
      if ShouldDisqualify(hand, Face(Top(discardPile)), currentColor, claim) {
        rest := Disqualify(rot, claim);
        return rest, false, |rest| == 1;
      }
      over := PlayClaimed(rot, claim, d, Snap());
      return rot, true, over;
    }

    /** A claim that passes the test of shouldDisqualify: the first card of the
        hand with the claimed face is laid and takes effect. */
    method PlayClaimed(rot: seq<int>, claim: Option<Card>, d: Decisions, ghost s: Snapshot) returns (emptied: bool)
      requires InSet(rot) && s == Snap()
      requires !ShouldDisqualify(Faces(s.info[s.active].hand), Face(Top(s.discard)), s.color, claim)
      modifies this`discardPile, this`playerInfo, this`events
      modifies this`activePlayerIndex, this`currentColor, this`currentDirection
      ensures InSet(rot) && ScoresOf(playerInfo) == ScoresOf(s.info)
      ensures emptied ==> playerInfo[activePlayerIndex].hand == []
      ensures Laid(s, rot, claim, d, rot, true, emptied)
    {
      var card, emptied' := LayClaimed(rot, claim, s);
      FollowCard(rot, Face(card), emptied', d);
      emptied := emptied';
    }

    /** The card of an accepted claim leaves the hand for the discard pile. */
    method LayClaimed(rot: seq<int>, claim: Option<Card>, ghost s: Snapshot) returns (card: CardId, emptied: bool)
      requires InSet(rot) && s == Snap()
      requires !ShouldDisqualify(Faces(s.info[s.active].hand), Face(Top(s.discard)), s.color, claim)
      modifies this`discardPile, this`playerInfo
      ensures InSet(rot) && ScoresOf(playerInfo) == ScoresOf(s.info)
      ensures emptied ==> playerInfo[activePlayerIndex].hand == []
      ensures LaidCard(s, rot, claim, emptied) && card == Top(discardPile)
    {
      var a := activePlayerIndex;
      ClaimFound(Faces(s.info[a].hand), Face(Top(s.discard)), s.color, claim);
      var k := FindInHand(Faces(playerInfo[a].hand), claim.value);
      card, emptied := LayCard(rot, k);
      HandKeepsScores(s.info, a, RemoveAt(s.info[a].hand, k));
    }

    /** The part of the game state a judgement reads and changes. */
    function Snap(): Snapshot
      reads this
    {
      Snapshot(activePlayerIndex, playerInfo, discardPile, currentColor, currentDirection,
        currentSetScore, events)
    }

    /** The judgement of claim from state s: a claim that fails the test of
        shouldDisqualify disqualifies the active player, any other is laid. */
    predicate Judged(s: Snapshot, rot: seq<int>, claim: Option<Card>, d: Decisions, rest: seq<int>, applyNext: bool, over: bool)
      reads this
    {
      0 <= s.active < |s.info| && s.discard != [] &&
      if ShouldDisqualify(Faces(s.info[s.active].hand), Face(Top(s.discard)), s.color, claim)
      then Disqualified(s, rot, claim, rest, applyNext, over)
      else Laid(s, rot, claim, d, rest, applyNext, over)
    }

    /** A judgement from state s that disqualified the active player a: a leaves
        the rotation, its hand score is added to the set score, the turn passes
        to the player who was next to a, the disqualification is announced, no
        card moves, and the next turn applies no action card. The set is over
        when one player is left. */
    predicate Disqualified(s: Snapshot, rot: seq<int>, claim: Option<Card>, rest: seq<int>, applyNext: bool, over: bool)
      reads this
    {
      var a := s.active;
      a in rot && 0 <= a < |s.info| &&
      rest == RemovePlayer(rot, a) && !applyNext && over == (|rest| == 1) &&
      activePlayerIndex == NextPlayerIndex(rot, a, s.direction) &&
      currentSetScore == s.setScore + HandValue(s.info, a) &&
      playerInfo == s.info && discardPile == s.discard &&
      currentColor == s.color && currentDirection == s.direction &&
      events == s.events + [HandlePlayerDisqualified(a, HandValue(s.info, a), claim)]
    }

    /** A judgement from state s that accepted the claim of the active player a:
        the first card of its hand with the claimed face goes onto the discard
        pile and takes effect (Played), the rotation stays, and the next turn
        applies the card's action. The set is over when the hand is empty. */
    predicate Laid(s: Snapshot, rot: seq<int>, claim: Option<Card>, d: Decisions, rest: seq<int>, applyNext: bool, over: bool)
      reads this
    {
      LaidCard(s, rot, claim, over) && rest == rot && applyNext &&
      LaidEffect(s, rot, Face(Top(discardPile)), d, over)
    }

    /** The card part of Laid: the first card of a's hand with the claimed face
        goes onto the discard pile; the set is over when the hand is empty. */
    predicate LaidCard(s: Snapshot, rot: seq<int>, claim: Option<Card>, over: bool)
      reads this`discardPile, this`playerInfo, this`currentSetScore
    {
      var a := s.active;
      a in rot && 0 <= a < |s.info| && claim.Some? &&
      var hand := s.info[a].hand;
      var k := FindInHand(Faces(hand), claim.value);
      0 <= k < |hand| && over == (RemoveAt(hand, k) == []) &&
      discardPile == s.discard + [hand[k]] &&
      playerInfo == s.info[a := s.info[a].(hand := RemoveAt(hand, k))] &&
      currentSetScore == s.setScore
    }

    /** The effect part of Laid: the card laid takes effect as Played says and
        the turn passes on unless the set is over. */
    predicate LaidEffect(s: Snapshot, rot: seq<int>, card: Card, d: Decisions, over: bool)
      reads this`currentColor, this`currentDirection, this`events, this`activePlayerIndex
      reads this`currentSetNumber, this`currentTurnNumber
    {
      var a := s.active;
      a in rot &&
      var e := Played(card, s.color, s.direction, d.changeColor(currentSetNumber, currentTurnNumber), a, over);
      currentColor == e.color && currentDirection == e.direction && events == s.events + e.calls &&
      activePlayerIndex == (if over then a else NextPlayerIndex(rot, a, e.direction))
    }

    /** The final loop of runSet_: the hand scores of the players of the
        rotation other than w, in rotation order. */
    method SumOthers(rot: seq<int>, w: int) returns (sum: int)
      requires Rotation(rot, |playerInfo|)
      ensures sum == RotationScore(playerInfo, rot, w)
    {
      sum := 0;
      var i := 0;
      while i < |rot|
        invariant 0 <= i <= |rot| && Rotation(rot[..i], |playerInfo|)
        invariant sum == RotationScore(playerInfo, rot[..i], w)
      {
        assert rot[..i + 1][..i] == rot[..i];
        RotationPrefix(rot, |playerInfo|, i + 1);
        if rot[i] != w {
          var s := CountHandScore(rot[i]);
          sum := sum + s;
        }
        i := i + 1;
      }
      assert rot[..i] == rot;
    }

    /** The set score at the end of runSet_: what the departed players held when
        they left plus the hands of the players left, the winner's excepted, which
        is every hand but the winner's. */
    method SetScore(rot: seq<int>) returns (score: int)
      requires InSet(rot)
      ensures score == ScoreExcept(playerInfo, activePlayerIndex, |playerInfo|)
    {
      var sum := SumOthers(rot, activePlayerIndex);
      RotationScoreIsInside(playerInfo, rot, activePlayerIndex);
      OutsidePlusInside(playerInfo, rot, activePlayerIndex, |playerInfo|);
      score := currentSetScore + sum;
    }

    /** Player p's score grows by `score`; no card moves. */
    method AddScore(p: int, score: int)
      requires Valid() && 0 <= p < |playerInfo|
      modifies this`playerInfo
      ensures Valid()
      ensures playerInfo == old(playerInfo)[p := old(playerInfo[p]).(currentScore := old(playerInfo[p].currentScore) + score)]
    {
      ScoreUpdate(playerInfo, p, playerInfo[p].currentScore + score);
      playerInfo := playerInfo[p := playerInfo[p].(currentScore := playerInfo[p].currentScore + score)];
    }

    /** The end of runSet_: the set score is added to the score of the active
        player, the winner, and the win is announced. */
    method AwardSet(score: int) returns (winner: int)
      requires Valid() && 0 <= activePlayerIndex < |playerInfo|
      modifies this`playerInfo, this`currentSetScore, this`events
      ensures Valid() && winner == activePlayerIndex && currentSetScore == score
      ensures playerInfo == old(playerInfo)[winner := old(playerInfo[winner]).(currentScore := old(playerInfo[winner].currentScore) + score)]
      ensures ScoreExcept(playerInfo, winner, |playerInfo|) == old(ScoreExcept(playerInfo, activePlayerIndex, |playerInfo|))
      ensures Awarded(old(ScoresOf(playerInfo)), ScoresOf(playerInfo), winner, score)
      ensures events == old(events) + [HandlePlayerWonSet(winner, score)]
    {
      winner := activePlayerIndex;
      ghost var info := playerInfo;
      AddScore(winner, score);
      AwardKeepsOthers(info, playerInfo, winner, score); AwardChangesScores(info, playerInfo, winner, score);
      currentSetScore, events := score, events + [HandlePlayerWonSet(winner, score)];
    }

    /** The turn loop of runSet_: each turn is counted and the turn limit checked
        before it is played. It ends at the turn limit, announced, with None, or
        with the players left in a set that is over: one player is left or the
        active player's hand is empty. */
    method PlayTurns(rot: seq<int>, d: Decisions) returns (rest: Option<seq<int>>)
      requires InSet(rot) && |rot| >= MIN_NUMBER_OF_PLAYERS && currentTurnNumber < turnsLimit
      modifies this`deck, this`discardPile, this`playerInfo, this`shuffles, this`events
      modifies this`activePlayerIndex, this`currentSetScore, this`currentColor, this`currentDirection
      modifies this`currentTurnNumber
      ensures Valid() && ScoresOf(playerInfo) == old(ScoresOf(playerInfo))
      ensures rest.None? ==> events != [] && events[|events| - 1] == HandleTurnsLimitReached
      ensures rest.Some? ==>
        InSet(rest.value) && (|rest.value| == 1 || playerInfo[activePlayerIndex].hand == [])
    {
      var players, apply := rot, true;
      while true
        invariant InSet(players) && |players| >= MIN_NUMBER_OF_PLAYERS && currentTurnNumber < turnsLimit
        invariant ScoresOf(playerInfo) == old(ScoresOf(playerInfo))
        decreases turnsLimit - currentTurnNumber
      {
        currentTurnNumber := currentTurnNumber + 1;
        if currentTurnNumber >= turnsLimit {
          events := events + [HandleTurnsLimitReached];
          return None;
        }
        var over; ghost var drawn;
        players, apply, over, drawn := PlayTurn(players, apply, d);
        if over {
          return Some(players);
        }
      }
    }

    /** The end of runSet_ once the set is over: the set score, the cards left
        in every hand but the active player's, goes to the active player. */
    method EndSet(rot: seq<int>) returns (winner: int, score: int)
      requires InSet(rot)
      modifies this`playerInfo, this`currentSetScore, this`events
      ensures Valid() && |playerInfo| == old(|playerInfo|)
      ensures winner == old(activePlayerIndex) && 0 <= winner < |playerInfo|
      ensures score == ScoreExcept(playerInfo, winner, |playerInfo|)
      ensures Awarded(old(ScoresOf(playerInfo)), ScoresOf(playerInfo), winner, score)
      ensures playerInfo[winner].hand == old(playerInfo[winner].hand)
      ensures events == old(events) + [HandlePlayerWonSet(winner, score)]
    {
      score := SetScore(rot);
      winner := AwardSet(score);
    }

    /** The set is started and its turns played: the scores stay as they were,
        and a set that is over has one player left or an active player whose
        hand is empty. */
    method PlayTurnsOfSet(d: Decisions) returns (rest: Option<seq<int>>)
      requires Valid() && |seats| >= MIN_NUMBER_OF_PLAYERS && turnsLimit > 0
      modifies this`deck, this`discardPile, this`playerInfo, this`shuffles, this`events
      modifies this`activePlayerIndex, this`currentSetScore, this`currentDirection, this`currentColor
      modifies this`currentTurnNumber, this`currentSetNumber
      ensures Valid() && ScoresOf(playerInfo) == old(ScoresOf(playerInfo))
      ensures currentSetNumber == old(currentSetNumber) + 1
      ensures rest.None? ==> events != [] && events[|events| - 1] == HandleTurnsLimitReached
      ensures rest.Some? ==> InSet(rest.value) && (|rest.value| == 1 || playerInfo[activePlayerIndex].hand == [])
    {
      ghost var scores := ScoresOf(playerInfo);
      var rot := StartSet(d);
      assert ScoresOf(playerInfo) == scores;
      rest := PlayTurns(rot, d);
    }

    /** How runSet_ ends, from the scores it started with: at the turn limit with
        winner -1 and score 0 announced and no score changed, or with a winner
        whose score grew by the set score, the cards left in every other hand,
        and the win announced last. The winner is one of the players `left` in
        the set, and either the only one or one whose hand is empty. */
    ghost predicate SetEnded(winner: int, score: int, scores: seq<int>, left: seq<int>)
      reads this`playerInfo, this`events
    {
      events != [] &&
      if winner < 0 then
        winner == -1 && score == 0 && ScoresOf(playerInfo) == scores &&
        events[|events| - 1] == HandleTurnsLimitReached
      else
        winner < |playerInfo| && winner in left && (left == [winner] || playerInfo[winner].hand == []) &&
        score == ScoreExcept(playerInfo, winner, |playerInfo|) &&
        Awarded(scores, ScoresOf(playerInfo), winner, score) &&
        events[|events| - 1] == HandlePlayerWonSet(winner, score)
    }

    /** runSet_ with enough players: the set is prepared and played turn by turn.
        At the turn limit it reports winner -1 and score 0 and nobody's score
        changes; else the winner's score grows by the set score, the cards left in
        every other hand, and the win is the last call made; the winner emptied
        its hand or is the only one of the players `left` in the set. */
    method PlaySet(d: Decisions) returns (winner: int, score: int, ghost left: seq<int>)
      requires Valid() && |seats| >= MIN_NUMBER_OF_PLAYERS && turnsLimit > 0
      modifies this`deck, this`discardPile, this`playerInfo, this`shuffles, this`events
      modifies this`activePlayerIndex, this`currentSetScore, this`currentDirection, this`currentColor
      modifies this`currentTurnNumber, this`currentSetNumber
      ensures Valid() && |playerInfo| == old(|playerInfo|) && currentSetNumber == old(currentSetNumber) + 1
      ensures -1 <= winner < |playerInfo| && SetEnded(winner, score, old(ScoresOf(playerInfo)), left)
    {
      var rest := PlayTurnsOfSet(d);
      if rest.None? {
        return -1, 0, [];
      }
      assert |rest.value| == 1 ==> rest.value == [activePlayerIndex];
      winner, score := EndSet(rest.value);
      left := rest.value;
    }

    /** runSet_: with fewer than two players UnderflowError is raised and nothing
        changes; otherwise the set is played as PlaySet says. */
    method RunSet(d: Decisions) returns (r: Result<(int, int)>, ghost left: seq<int>)
      requires Valid() && turnsLimit > 0
      modifies this`deck, this`discardPile, this`playerInfo, this`shuffles, this`events
      modifies this`activePlayerIndex, this`currentSetScore, this`currentDirection, this`currentColor
      modifies this`currentTurnNumber, this`currentSetNumber
      ensures Valid() && |playerInfo| == old(|playerInfo|)
      ensures r.Throws? <==> old(|seats|) < MIN_NUMBER_OF_PLAYERS
      ensures r.Throws? ==> r.exception == UnderflowError && unchanged(this)
      ensures r.Ok? ==> currentSetNumber == old(currentSetNumber) + 1 && -1 <= r.value.0 < |playerInfo|
      ensures r.Ok? ==> SetEnded(r.value.0, r.value.1, old(ScoresOf(playerInfo)), left)
    {
      if |seats| < MIN_NUMBER_OF_PLAYERS {
        return Throws(UnderflowError), [];
      }
      var winner, score;
      winner, score, left := PlaySet(d);
      r := Ok((winner, score));
    }

    /** The first loop of initPlayerInfo: every cumulative score goes back to 0. */
    method ResetScores()
      requires Valid()
      modifies this`playerInfo
      ensures Valid() && |playerInfo| == old(|playerInfo|)
      ensures forall q :: 0 <= q < |playerInfo| ==> playerInfo[q] == old(playerInfo[q]).(currentScore := 0)
    {
      var i := 0;
      while i < |playerInfo|
        invariant Valid() && |playerInfo| == old(|playerInfo|) && 0 <= i <= |playerInfo|
        invariant forall q :: 0 <= q < i ==> playerInfo[q] == old(playerInfo[q]).(currentScore := 0)
        invariant forall q :: i <= q < |playerInfo| ==> playerInfo[q] == old(playerInfo[q])
      {
        ScoreUpdate(playerInfo, i, 0);
        playerInfo := playerInfo[i := playerInfo[i].(currentScore := 0)];
        i := i + 1;
      }
    }

    /** The second loop of initPlayerInfo: every seated player is announced, seat
        by seat, with its seat number and name. */
    method AnnouncePlayers()
      modifies this`events
      ensures events == old(events) + EnteredCalls(seats, names)
    {
      var i := 0;
      while i < |seats|
        invariant 0 <= i <= |seats|
        invariant events == old(events) + EnteredCalls(seats[..i], names)
      {
        var name := if seats[i].id < |names| then names[seats[i].id] else "";
        assert EnteredCalls(seats[..i + 1], names) ==
          EnteredCalls(seats[..i], names) + [HandlePlayerEntered(seats[i].playerIndex, name)];
        events := events + [HandlePlayerEntered(seats[i].playerIndex, name)];
        i := i + 1;
      }
      assert seats[..i] == seats;
    }

    /** initPlayerInfo: the scores go back to 0, the players are announced, the set
        count restarts and every card goes back to the deck. */
    method InitPlayerInfo()
      requires Valid()
      modifies this`deck, this`discardPile, this`playerInfo, this`events, this`currentSetNumber
      ensures Valid() && |deck| == DECK_SIZE && discardPile == []
      ensures |playerInfo| == old(|playerInfo|)
      ensures forall q :: 0 <= q < |playerInfo| ==> playerInfo[q] == PlayerInfo([], 0)
      ensures currentSetNumber == 0
      ensures events == old(events) + EnteredCalls(seats, names)
    {
      ResetScores();
      AnnouncePlayers();
      currentSetNumber := 0;
      MoveToDeck();
    }

    /** How runGame ends with a result: at the sets limit with findWinner's answer
        announced, or with a winner whose total has reached WINNING_SCORE
        announced. */
    ghost predicate GameEnded(r: (int, int))
      reads this`playerInfo, this`events, this`currentSetNumber, this`setsLimit
    {
      events != [] && |playerInfo| > 0 && (
        (r == FindWinner(ScoresOf(playerInfo)) && currentSetNumber == setsLimit &&
          events[|events| - 1] == HandleSetsLimitReached(r.0, r.1)) ||
        (0 <= r.0 < |playerInfo| && r.1 == playerInfo[r.0].currentScore >= WINNING_SCORE &&
          events[|events| - 1] == HandlePlayerWonGame(r.0, r.1)))
    }

    /** The sets limit is reached: findWinner's answer is announced and returned. */
    method EndAtSetsLimit() returns (r: (int, int))
      requires |playerInfo| > 0 && currentSetNumber == setsLimit
      modifies this`events
      ensures GameEnded(r) && r == FindWinner(ScoresOf(playerInfo))
      ensures events == old(events) + [HandleSetsLimitReached(r.0, r.1)]
    {
      r := FindWinner(ScoresOf(playerInfo));
      events := events + [HandleSetsLimitReached(r.0, r.1)];
    }

    /** The winner of the last set has reached WINNING_SCORE: its total is
        announced and returned. */
    method EndWithWinner(winner: int) returns (r: (int, int))
      requires 0 <= winner < |playerInfo| && playerInfo[winner].currentScore >= WINNING_SCORE
      modifies this`events
      ensures GameEnded(r) && r == (winner, playerInfo[winner].currentScore)
      ensures events == old(events) + [HandlePlayerWonGame(r.0, r.1)]
    {
      r := (winner, playerInfo[winner].currentScore);
      events := events + [HandlePlayerWonGame(r.0, r.1)];
    }

    /** How a pass of the do-while loop of runGame ends after a set won by `won`
        (-1 at the turn limit), from the scores before the set: the set's winner
        alone gained the cards left in the other hands; None exactly when
        another set follows, as AfterSet says; otherwise the set's winner,
        whose total has reached WINNING_SCORE, wins the game, announced last. */
    ghost predicate PassEnded(outcome: Option<Result<(int, int)>>, won: int, scores: seq<int>)
      reads this`playerInfo, this`events
    {
      -1 <= won < |playerInfo| &&
      (won < 0 ==> ScoresOf(playerInfo) == scores) &&
      (won >= 0 ==> Awarded(scores, ScoresOf(playerInfo), won, ScoreExcept(playerInfo, won, |playerInfo|))) &&
      (outcome.None? <==> AfterSet(won, ScoresOf(playerInfo)) == NextSet) &&
      (outcome.Some? ==>
        0 <= won && playerInfo[won].currentScore >= WINNING_SCORE &&
        outcome.value == Ok((won, playerInfo[won].currentScore)) &&
        events != [] && events[|events| - 1] == HandlePlayerWonGame(won, playerInfo[won].currentScore))
    }

    /** One pass of the do-while loop of runGame below the sets limit: a set is
        run, and `won` is its winner (-1 at the turn limit). None when another
        set follows (see AfterSet); else the game ends with the set's winner,
        whose total has reached WINNING_SCORE, announced. */
    method PlayOneSet(d: Decisions) returns (outcome: Option<Result<(int, int)>>, ghost won: int)
      requires Valid() && turnsLimit > 0
      modifies this`deck, this`discardPile, this`playerInfo, this`shuffles, this`events
      modifies this`activePlayerIndex, this`currentSetScore, this`currentDirection, this`currentColor
      modifies this`currentTurnNumber, this`currentSetNumber
      ensures Valid() && |playerInfo| == old(|playerInfo|)
      ensures outcome == Some(Throws(UnderflowError)) <==> |seats| < MIN_NUMBER_OF_PLAYERS
      ensures outcome != Some(Throws(UnderflowError)) ==> currentSetNumber == old(currentSetNumber) + 1
      ensures outcome.Some? && outcome.value.Ok? ==> GameEnded(outcome.value.value)
      ensures outcome.Some? ==> outcome.value.Ok? || outcome.value == Throws(UnderflowError)
      ensures outcome != Some(Throws(UnderflowError)) ==> PassEnded(outcome, won, old(ScoresOf(playerInfo)))
    {
      ghost var left;
      var s;
      s, left := RunSet(d);
      if s.Throws? {
        return Some(Throws(s.exception)), -1;
      }
      won := s.value.0;
      outcome := ConcludeSet(s.value.0, s.value.1, old(ScoresOf(playerInfo)), left);
    }

    /** After a set of runGame that ended as SetEnded says: None when another
        set follows (see AfterSet), else the game ends with the set's winner. */
    method ConcludeSet(winner: int, ghost score: int, ghost scores: seq<int>, ghost left: seq<int>)
      returns (outcome: Option<Result<(int, int)>>)
      requires -1 <= winner < |playerInfo| && SetEnded(winner, score, scores, left)
      modifies this`events
      ensures Valid() == old(Valid()) && playerInfo == old(playerInfo) && seats == old(seats)
      ensures currentSetNumber == old(currentSetNumber)
      ensures outcome.None? <==> AfterSet(winner, ScoresOf(playerInfo)).NextSet?
      ensures outcome.Some? ==> outcome.value.Ok? && GameEnded(outcome.value.value)
      ensures outcome.Some? ==>
        0 <= winner && playerInfo[winner].currentScore >= WINNING_SCORE &&
        outcome.value == Ok((winner, playerInfo[winner].currentScore)) &&
        events == old(events) + [HandlePlayerWonGame(winner, playerInfo[winner].currentScore)]
      ensures outcome.None? ==> events == old(events)
      ensures PassEnded(outcome, winner, scores)
    {
      if AfterSet(winner, ScoresOf(playerInfo)).NextSet? {
        return None;
      }
      assert ScoresOf(playerInfo)[winner] == playerInfo[winner].currentScore;
      var result := EndWithWinner(winner);
      return Some(Ok(result));
    }

    /** The do-while loop of runGame, with a set without a winner followed by the
        next set (see AfterSet). It stops at the sets limit or when a set's winner
        has reached WINNING_SCORE, as GameEnded says; UnderflowError from the first
        set propagates. */
    method PlaySets(d: Decisions) returns (r: Result<(int, int)>)
      requires Valid() && turnsLimit > 0 && setsLimit > 0 && currentSetNumber == 0
      modifies this`deck, this`discardPile, this`playerInfo, this`shuffles, this`events
      modifies this`activePlayerIndex, this`currentSetScore, this`currentDirection, this`currentColor
      modifies this`currentTurnNumber, this`currentSetNumber
      ensures Valid() && |playerInfo| == old(|playerInfo|)
      ensures r.Throws? <==> |seats| < MIN_NUMBER_OF_PLAYERS
      ensures r.Throws? ==> r.exception == UnderflowError
      ensures r.Ok? ==> GameEnded(r.value)
    {
      while true
        invariant Valid() && |playerInfo| == old(|playerInfo|)
        invariant 0 <= currentSetNumber <= setsLimit
        invariant currentSetNumber > 0 ==> |seats| >= MIN_NUMBER_OF_PLAYERS
        decreases setsLimit - currentSetNumber
      {
        if currentSetNumber >= setsLimit {
          var result := EndAtSetsLimit();
          return Ok(result);
        }
        var outcome; ghost var won;
        outcome, won := PlayOneSet(d);
        if outcome.Some? {
          return outcome.value;
        }
      }
    }

    /** runGame: the players' records are reset and announced, then sets are played
        as PlaySets says. */
    method RunGame(d: Decisions) returns (r: Result<(int, int)>)
      requires Valid() && turnsLimit > 0 && setsLimit > 0
      modifies this`deck, this`discardPile, this`playerInfo, this`shuffles, this`events
      modifies this`activePlayerIndex, this`currentSetScore, this`currentDirection, this`currentColor
      modifies this`currentTurnNumber, this`currentSetNumber
      ensures Valid() && |playerInfo| == old(|playerInfo|)
      ensures r.Throws? <==> |seats| < MIN_NUMBER_OF_PLAYERS
      ensures r.Throws? ==> r.exception == UnderflowError
      ensures r.Ok? ==> GameEnded(r.value)
    {
      InitPlayerInfo();
      r := PlaySets(d);
    }
  }
}
