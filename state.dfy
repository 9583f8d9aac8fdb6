/** The bookkeeping of UnoGame (game/uno_game.h): the exceptions it throws, the
    record it keeps per player, what its piles hold, and the sums behind the score
    of a set. Piles hold card identities, positions in Decks.StandardDeck(); the
    card an identity stands for is its Decks.Face. */
module GameState {
  import opened Cards
  import opened Piles
  import opened Decks
  import opened Rules
  import opened Seating

  const WINNING_SCORE: int := 500
  const MIN_NUMBER_OF_PLAYERS: int := 2
  const MAX_NUMBER_OF_PLAYERS: int := 10
  const DEFAULT_MESSAGE_QUEUE_LIMIT: int := 50
  const INITIAL_CARDS_NUMBER: int := 7
  const DEFAULT_TURNS_LIMIT: nat := 100000
  const DEFAULT_SETS_LIMIT: nat := 1000

  /** The standard exceptions the engine throws. */
  datatype Exception = OverflowError | OutOfRange | UnderflowError | LengthError | DomainError

  datatype Result<T> = Ok(value: T) | Throws(exception: Exception)

  /** The outcome of an operation that returns nothing. */
  datatype Status = Done | Thrown(exception: Exception)

  /** PlayerInfo: the hand of a player and the score it has accumulated. */
  datatype PlayerInfo = PlayerInfo(hand: seq<CardId>, currentScore: int)

  function Faces(ids: seq<CardId>): (r: seq<Card>)
    ensures |r| == |ids| && forall k :: 0 <= k < |ids| ==> r[k] == Face(ids[k])
  {
    seq(|ids|, k requires 0 <= k < |ids| => Face(ids[k]))
  }

  function HandsOf(info: seq<PlayerInfo>): (r: seq<seq<CardId>>)
    ensures |r| == |info| && forall p :: 0 <= p < |info| ==> r[p] == info[p].hand
  {
    seq(|info|, p requires 0 <= p < |info| => info[p].hand)
  }

  /** currentScores: the cumulative scores, player by player. */
  function ScoresOf(info: seq<PlayerInfo>): (r: seq<int>)
    ensures |r| == |info| && forall p :: 0 <= p < |info| ==> r[p] == info[p].currentScore
  {
    seq(|info|, p requires 0 <= p < |info| => info[p].currentScore)
  }

  /** Every card the engine created is in exactly one place: the deck, the discard
      pile or one hand. */
  ghost predicate Conserved(deck: seq<CardId>, discard: seq<CardId>, info: seq<PlayerInfo>) {
    multiset(deck) + multiset(discard) + Pool(HandsOf(info)) == multiset(Ids(DECK_SIZE))
  }

  /** Conservation makes deck and discard pile repeat-free (deckIsConsistent) and
      keeps every identity inside the arena. */
  lemma ConservedFacts(deck: seq<CardId>, discard: seq<CardId>, info: seq<PlayerInfo>)
    requires Conserved(deck, discard, info)
    ensures Distinct(deck) && Distinct(discard)
    ensures forall i :: 0 <= i < |deck| ==> deck[i] < DECK_SIZE
    ensures forall i :: 0 <= i < |discard| ==> discard[i] < DECK_SIZE
    ensures |deck| + |discard| + |Pool(HandsOf(info))| == DECK_SIZE
  {
    forall x
      ensures multiset(deck)[x] <= 1 && multiset(discard)[x] <= 1
    {
      IdsCount(DECK_SIZE, x);
    }
    NoRepeatsIsDistinct(deck);
    NoRepeatsIsDistinct(discard);
    forall i | 0 <= i < |deck|
      ensures deck[i] < DECK_SIZE
    {
      IdsCount(DECK_SIZE, deck[i]);
    }
    forall i | 0 <= i < |discard|
      ensures discard[i] < DECK_SIZE
    {
      IdsCount(DECK_SIZE, discard[i]);
    }
  }

  /** Reordering the deck keeps every card in exactly one place. */
  lemma {:induction false} Reshuffled(deck: seq<CardId>, deck': seq<CardId>, discard: seq<CardId>, info: seq<PlayerInfo>)
    requires Conserved(deck, discard, info) && multiset(deck') == multiset(deck)
    ensures Conserved(deck', discard, info)
  {
  }

  /** Replacing one hand changes the pooled hands by exactly that difference. */
  lemma HandUpdate(info: seq<PlayerInfo>, p: nat, hand: seq<CardId>)
    requires p < |info|
    ensures Pool(HandsOf(info[p := info[p].(hand := hand)])) + multiset(info[p].hand) ==
      Pool(HandsOf(info)) + multiset(hand)
  {
    assert HandsOf(info[p := info[p].(hand := hand)]) == HandsOf(info)[p := hand];
    PoolUpdate(HandsOf(info), p, hand);
  }

  /** Cards taken off the deck into a hand stay conserved. */
  lemma GiveCards(deck: seq<CardId>, discard: seq<CardId>, info: seq<PlayerInfo>, p: nat,
                  rest: seq<CardId>, given: seq<CardId>)
    requires p < |info| && Conserved(deck, discard, info)
    requires multiset(deck) == multiset(rest) + multiset(given)
    ensures Conserved(rest, discard, info[p := info[p].(hand := info[p].hand + given)])
  {
    var info' := info[p := info[p].(hand := info[p].hand + given)];
    HandUpdate(info, p, info[p].hand + given);
    assert multiset(info[p].hand + given) == multiset(info[p].hand) + multiset(given);
    Cancel(Pool(HandsOf(info')), Pool(HandsOf(info)) + multiset(given), multiset(info[p].hand));
  }

  lemma Cancel(a: multiset<CardId>, b: multiset<CardId>, c: multiset<CardId>)
    requires a + c == b + c
    ensures a == b
  {
    assert forall x :: a[x] == (a + c)[x] - c[x] && b[x] == (b + c)[x] - c[x];
  }

  /** A card laid from a hand onto the discard pile stays conserved. */
  lemma LayFromHand(deck: seq<CardId>, discard: seq<CardId>, info: seq<PlayerInfo>, a: nat, k: nat)
    requires a < |info| && k < |info[a].hand| && Conserved(deck, discard, info)
    ensures Conserved(deck, discard + [info[a].hand[k]], info[a := info[a].(hand := RemoveAt(info[a].hand, k))])
  {
    var h := info[a].hand;
    var info' := info[a := info[a].(hand := RemoveAt(h, k))];
    HandUpdate(info, a, RemoveAt(h, k));
    RemoveAtMultiset(h, k);
    assert Pool(HandsOf(info')) + multiset{h[k]} + multiset(RemoveAt(h, k)) == Pool(HandsOf(info)) + multiset(RemoveAt(h, k));
    Cancel(Pool(HandsOf(info')) + multiset{h[k]}, Pool(HandsOf(info)), multiset(RemoveAt(h, k)));
  }

  /** A deck card turned onto the discard pile stays conserved. */
  lemma TurnOver(deck: seq<CardId>, discard: seq<CardId>, info: seq<PlayerInfo>, k: nat)
    requires k < |deck| && Conserved(deck, discard, info)
    ensures Conserved(RemoveAt(deck, k), discard + [deck[k]], info)
  {
    RemoveAtMultiset(deck, k);
  }

  /** A hand emptied into the deck stays conserved. */
  lemma CollectHand(deck: seq<CardId>, discard: seq<CardId>, info: seq<PlayerInfo>, q: nat)
    requires q < |info| && Conserved(deck, discard, info)
    ensures Conserved(deck + info[q].hand, discard, info[q := info[q].(hand := [])])
  {
    var info' := info[q := info[q].(hand := [])];
    HandUpdate(info, q, []);
    assert Pool(HandsOf(info')) + multiset(info[q].hand) == Pool(HandsOf(info));
    assert multiset(deck + info[q].hand) == multiset(deck) + multiset(info[q].hand);
  }

  /** Putting hand q at the end of a deck that already holds hands 0..q-1 extends
      it by one more hand, in seat order. */
  lemma CollectNext(info0: seq<PlayerInfo>, hand: seq<CardId>, deck0: seq<CardId>, deck: seq<CardId>, q: nat)
    requires q < |info0| && hand == info0[q].hand
    requires deck == deck0 + Concat(HandsOf(info0)[..q])
    ensures deck + hand == deck0 + Concat(HandsOf(info0)[..q + 1])
  {
    assert HandsOf(info0)[..q + 1][..q] == HandsOf(info0)[..q];
  }

  /** flushDiscardPile: all cards of the discard pile but the top one join the deck,
      and the top card, swapped to the front, is all that remains of the pile. */
  lemma Flushing(deck: seq<CardId>, discard: seq<CardId>, info: seq<PlayerInfo>)
    requires |discard| >= 2 && Conserved(deck, discard, info)
    ensures Swap(discard, |discard| - 1, 0)[..1] == [discard[|discard| - 1]]
    ensures Conserved(deck + discard[..|discard| - 1], [discard[|discard| - 1]], info)
  {
    var last := |discard| - 1;
    assert discard == discard[..last] + [discard[last]];
    assert multiset(discard) == multiset(discard[..last]) + multiset{discard[last]};
  }

  /** The loop of clearHands: every hand, seat by seat, is put at the end of the
      deck and emptied. */
  method CollectHands(deck: seq<CardId>, discard: seq<CardId>, info: seq<PlayerInfo>)
    returns (pile: seq<CardId>, emptied: seq<PlayerInfo>)
    requires Conserved(deck, discard, info)
    ensures Conserved(pile, discard, emptied)
    ensures pile == deck + Concat(HandsOf(info))
    ensures |emptied| == |info| && forall q :: 0 <= q < |info| ==> emptied[q] == info[q].(hand := [])
  {
    pile, emptied := deck, info;
    var q := 0;
    while q < |emptied|
      invariant 0 <= q <= |emptied| == |info|
      invariant Conserved(pile, discard, emptied)
      invariant pile == deck + Concat(HandsOf(info)[..q])
      invariant forall k :: 0 <= k < q ==> emptied[k] == info[k].(hand := [])
      invariant forall k :: q <= k < |emptied| ==> emptied[k] == info[k]
    {
      CollectNext(info, emptied[q].hand, deck, pile, q);
      CollectHand(pile, discard, emptied, q);
      pile := pile + emptied[q].hand;
      emptied := emptied[q := emptied[q].(hand := [])];
      q := q + 1;
    }
    assert HandsOf(info)[..q] == HandsOf(info);
  }

  /** A newly seated player holds no card. */
  lemma SeatNewPlayer(info: seq<PlayerInfo>)
    ensures Pool(HandsOf(info + [PlayerInfo([], 0)])) == Pool(HandsOf(info))
  {
    assert HandsOf(info + [PlayerInfo([], 0)])[..|info|] == HandsOf(info);
  }

  /** Changing scores leaves the hands alone. */
  lemma ScoreUpdate(info: seq<PlayerInfo>, p: nat, score: int)
    requires p < |info|
    ensures HandsOf(info[p := info[p].(currentScore := score)]) == HandsOf(info)
  {
  }

  /** Changing a hand leaves the scores alone. */
  lemma HandKeepsScores(info: seq<PlayerInfo>, p: nat, hand: seq<CardId>)
    requires p < |info|
    ensures ScoresOf(info[p := info[p].(hand := hand)]) == ScoresOf(info)
  {
  }

  /** The scores after the winner of a set gained its score: nobody else's changed. */
  predicate Awarded(before: seq<int>, after: seq<int>, winner: int, score: int) {
    0 <= winner < |before| && after == before[winner := before[winner] + score]
  }

  /** Changing one player's score changes that entry of the scores only. */
  lemma ScoreChange(info: seq<PlayerInfo>, p: nat, score: int)
    requires p < |info|
    ensures ScoresOf(info[p := info[p].(currentScore := score)]) == ScoresOf(info)[p := score]
  {
  }

  /** Exchanging two records moves no card. */
  lemma SwapKeepsPool(info: seq<PlayerInfo>, i: nat, j: nat)
    requires i < |info| && j < |info|
    ensures Pool(HandsOf(Swap(info, i, j))) == Pool(HandsOf(info))
  {
    var h := HandsOf(info);
    var t := h[i := h[j]];
    PoolUpdate(h, i, h[j]);
    PoolUpdate(t, j, h[i]);
    assert HandsOf(Swap(info, i, j)) == t[j := h[i]];
    assert t[j] == h[j];
    var f := t[j := h[i]];
    var mi, mj := multiset(h[i]), multiset(h[j]);
    assert Pool(f) + mj == Pool(t) + mi;
    assert Pool(t) + mi == Pool(h) + mj;
    assert Pool(f) + (mj + mi) == Pool(t) + mi + mi;
    assert Pool(h) + (mj + mi) == Pool(t) + mi + mi;
    Cancel(Pool(f), Pool(h), mj + mi);
  }

  lemma {:induction false} SwapsKeepPool(info: seq<PlayerInfo>, perm: seq<int>, i: nat)
    requires i <= |perm| && PermutationFits(|info|, perm)
    ensures Pool(HandsOf(ApplySwaps(info, perm, i))) == Pool(HandsOf(info))
    decreases |perm| - i
  {
    if i < |perm| {
      SwapKeepsPool(info, i, perm[i]);
      SwapsKeepPool(Swap(info, i, perm[i]), perm, i + 1);
    }
  }

  /** The rotation of a set (set_players): distinct players, all seated. */
  predicate Rotation(rot: seq<int>, n: int) {
    NoRepeats(rot) && forall i :: 0 <= i < |rot| ==> 0 <= rot[i] < n
  }

  /** The players of a rotation up to any position are a rotation. */
  lemma RotationPrefix(rot: seq<int>, n: int, i: nat)
    requires Rotation(rot, n) && i <= |rot|
    ensures Rotation(rot[..i], n)
  {
    assert forall j :: 0 <= j < i ==> rot[..i][j] == rot[j];
  }

  /** Every seated player, in seat order. */
  function Everyone(n: nat): (r: seq<int>)
    ensures |r| == n && Rotation(r, n)
    ensures forall q :: 0 <= q < n ==> q in r
  {
    var r := seq(n, i requires 0 <= i < n => i);
    forall q | 0 <= q < n
      ensures q in r
    {
      assert r[q] == q;
    }
    r
  }

  /** A disqualified player leaves; the rest keep their order and stay a rotation. */
  lemma RemoveKeepsRotation(rot: seq<int>, n: int, a: int)
    requires Rotation(rot, n) && a in rot
    ensures Rotation(RemovePlayer(rot, a), n)
  {
    var k := Position(rot, a);
    var r := RemovePlayer(rot, a);
    assert r == rot[..k] + rot[k + 1..];
    forall i, j | 0 <= i < j < |r|
      ensures r[i] != r[j]
    {
      var i' := if i < k then i else i + 1;
      var j' := if j < k then j else j + 1;
      assert r[i] == rot[i'] && r[j] == rot[j'] && i' < j';
    }
    forall i | 0 <= i < |r|
      ensures 0 <= r[i] < n
    {
      assert r[i] in rot;
    }
  }

  /** countHandScore of player q. */
  function HandValue(info: seq<PlayerInfo>, q: nat): int
    requires q < |info|
  {
    HandScore(Faces(info[q].hand))
  }

  /** The hands of the players below p who have left the rotation: what
      disqualifications have added to the set score so far. */
  function OutsideScore(info: seq<PlayerInfo>, rot: seq<int>, p: nat): int
    requires p <= |info|
  {
    if p == 0 then 0
    else OutsideScore(info, rot, p - 1) + (if p - 1 in rot then 0 else HandValue(info, p - 1))
  }

  /** The hands of the players below p still in the rotation, except w. */
  function InsideScore(info: seq<PlayerInfo>, rot: seq<int>, w: int, p: nat): int
    requires p <= |info|
  {
    if p == 0 then 0
    else InsideScore(info, rot, w, p - 1) + (if p - 1 in rot && p - 1 != w then HandValue(info, p - 1) else 0)
  }

  /** The hands of all players below p except w. */
  function ScoreExcept(info: seq<PlayerInfo>, w: int, p: nat): int
    requires p <= |info|
  {
    if p == 0 then 0
    else ScoreExcept(info, w, p - 1) + (if p - 1 != w then HandValue(info, p - 1) else 0)
  }

  /** The hands of the players of the rotation except w, in rotation order (the
      final loop of runSet_). */
  function RotationScore(info: seq<PlayerInfo>, rot: seq<int>, w: int): int
    requires Rotation(rot, |info|)
  {
    if rot == [] then 0
    else
      var m := rot[|rot| - 1];
      RotationScore(info, rot[..|rot| - 1], w) + (if m != w then HandValue(info, m) else 0)
  }

  /** The hands of everyone but w do not depend on anyone's score. */
  lemma {:induction false} ScoreExceptIgnoresScores(info: seq<PlayerInfo>, q: nat, score: int, w: int, p: nat)
    requires q < |info| && p <= |info|
    ensures ScoreExcept(info[q := info[q].(currentScore := score)], w, p) == ScoreExcept(info, w, p)
  {
    if p > 0 {
      ScoreExceptIgnoresScores(info, q, score, w, p - 1);
    }
  }

  /** Nobody has left a rotation that still seats everyone. */
  lemma {:induction false} OutsideOfEveryone(info: seq<PlayerInfo>, rot: seq<int>, p: nat)
    requires p <= |info| && forall q :: 0 <= q < p ==> q in rot
    ensures OutsideScore(info, rot, p) == 0
  {
    if p > 0 {
      OutsideOfEveryone(info, rot, p - 1);
    }
  }

  /** The score of the departed depends only on the departed players' hands. */
  lemma {:induction false} OutsideFrame(info: seq<PlayerInfo>, info': seq<PlayerInfo>, rot: seq<int>, p: nat)
    requires p <= |info| == |info'|
    requires forall q :: 0 <= q < p && q !in rot ==> info'[q].hand == info[q].hand
    ensures OutsideScore(info', rot, p) == OutsideScore(info, rot, p)
  {
    if p > 0 {
      OutsideFrame(info, info', rot, p - 1);
    }
  }

  /** Removing player a from the rotation adds a's hand to the departed. */
  lemma {:induction false} OutsideRemove(info: seq<PlayerInfo>, rot: seq<int>, rot': seq<int>, a: int, p: nat)
    requires p <= |info| && a in rot
    requires forall q :: q in rot' <==> q in rot && q != a
    ensures OutsideScore(info, rot', p) == OutsideScore(info, rot, p) + (if 0 <= a < p then HandValue(info, a) else 0)
  {
    if p > 0 {
      OutsideRemove(info, rot, rot', a, p - 1);
    }
  }

  /** The departed and the remaining players other than w make up everyone but w. */
  lemma {:induction false} OutsidePlusInside(info: seq<PlayerInfo>, rot: seq<int>, w: int, p: nat)
    requires p <= |info| && w in rot
    ensures OutsideScore(info, rot, p) + InsideScore(info, rot, w, p) == ScoreExcept(info, w, p)
  {
    if p > 0 {
      OutsidePlusInside(info, rot, w, p - 1);
    }
  }

  lemma {:induction false} InsideAddLast(info: seq<PlayerInfo>, rot: seq<int>, m: int, w: int, p: nat)
    requires p <= |info| && m !in rot
    ensures InsideScore(info, rot + [m], w, p) ==
      InsideScore(info, rot, w, p) + (if 0 <= m < p && m != w then HandValue(info, m) else 0)
  {
    if p > 0 {
      InsideAddLast(info, rot, m, w, p - 1);
      assert p - 1 in rot + [m] <==> p - 1 in rot || p - 1 == m;
    }
  }

  /** Summing in rotation order gives the same as summing by seat. */
  lemma {:induction false} RotationScoreIsInside(info: seq<PlayerInfo>, rot: seq<int>, w: int)
    requires Rotation(rot, |info|)
    ensures RotationScore(info, rot, w) == InsideScore(info, rot, w, |info|)
  {
    if rot == [] {
      InsideOfNobody(info, w, |info|);
    } else {
      var t, m := rot[..|rot| - 1], rot[|rot| - 1];
      assert rot == t + [m];
      assert Rotation(t, |info|);
      assert m !in t;
      RotationScoreIsInside(info, t, w);
      InsideAddLast(info, t, m, w, |info|);
    }
  }

  lemma {:induction false} InsideOfNobody(info: seq<PlayerInfo>, w: int, p: nat)
    requires p <= |info|
    ensures InsideScore(info, [], w, p) == 0
  {
    if p > 0 {
      InsideOfNobody(info, w, p - 1);
    }
  }
}
