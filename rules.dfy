/** The pure queries of the turn loop in game/uno_game.cpp: colour matching,
    whether a play is possible, finding a claimed card in the hand, the
    disqualification test, hand scores, the next player in the rotation and the
    game winner. Hands are given as the card values they hold, in hand order. */
module Rules {
  import opened Cards
  import opened Events

  /** The active player holds a card of this colour that is not wild (haveMatchingColor). */
  function HaveMatchingColor(hand: seq<Card>, color: Color): (r: bool)
    ensures r <==> exists k :: 0 <= k < |hand| && !hand[k].IsWild() && hand[k].color == color
  {
    if hand == [] then false
    else (!hand[0].IsWild() && hand[0].color == color) || HaveMatchingColor(hand[1..], color)
  }

  /** The hand holds a wild card or a card of the given value. */
  function HaveWildOrValue(hand: seq<Card>, value: int): (r: bool)
    ensures r <==> exists k :: 0 <= k < |hand| && (hand[k].IsWild() || hand[k].value == value)
  {
    if hand == [] then false
    else hand[0].IsWild() || hand[0].value == value || HaveWildOrValue(hand[1..], value)
  }

  /** canPlaceCard: a non-wild card of the current colour, a wild card, or a card
      of the top card's value. */
  function CanPlaceCard(hand: seq<Card>, top: Card, color: Color): bool {
    HaveMatchingColor(hand, color) || HaveWildOrValue(hand, top.value)
  }

  /** The hand card is taken for the claimed one: same colour and same value. */
  predicate SameFace(a: Card, b: Card) {
    a.color == b.color && a.value == b.value
  }

  /** The position of the first hand card with the claimed colour and value, or -1. */
  function FindInHand(hand: seq<Card>, claim: Card): (k: int)
    ensures -1 <= k < |hand|
    ensures k >= 0 ==> SameFace(hand[k], claim) && forall j :: 0 <= j < k ==> !SameFace(hand[j], claim)
    ensures k == -1 <==> forall j :: 0 <= j < |hand| ==> !SameFace(hand[j], claim)
  {
    if hand == [] then -1
    else if SameFace(hand[0], claim) then 0
    else
      var k := FindInHand(hand[1..], claim);
      if k < 0 then -1 else k + 1
  }

  /** The disqualification test of a claimed card (None stands for a null card):
      missing, invalid, not in the hand, a WildDraw4 while the player holds a card
      of the current colour, or a non-wild card that matches neither the top
      card's value nor the current colour. */
  function ShouldDisqualify(hand: seq<Card>, top: Card, color: Color, claim: Option<Card>): bool {
    match claim
    case None => true
    case Some(c) =>
      !c.IsValid()
      || FindInHand(hand, c) < 0
      || (HaveMatchingColor(hand, color) && c.value == WILD_DRAW4)
      || (!c.IsWild() && c.value != top.value && c.color != color)
  }

  /** Every card of the hand is valid (true of every card of the standard deck). */
  predicate AllValid(hand: seq<Card>) {
    forall k :: 0 <= k < |hand| ==> hand[k].IsValid()
  }

  /** A play is possible exactly when some card of the hand would be accepted. */
  lemma CanPlaceIffLegalCardInHand(hand: seq<Card>, top: Card, color: Color)
    requires AllValid(hand)
    ensures CanPlaceCard(hand, top, color) <==>
      exists k :: 0 <= k < |hand| && !ShouldDisqualify(hand, top, color, Some(hand[k]))
  {
    if CanPlaceCard(hand, top, color) {
      var k: int;
      if HaveMatchingColor(hand, color) {
        k :| 0 <= k < |hand| && !hand[k].IsWild() && hand[k].color == color;
      } else {
        k :| 0 <= k < |hand| && (hand[k].IsWild() || hand[k].value == top.value);
      }
      assert FindInHand(hand, hand[k]) >= 0;
      assert !ShouldDisqualify(hand, top, color, Some(hand[k]));
    }
    if exists k :: 0 <= k < |hand| && !ShouldDisqualify(hand, top, color, Some(hand[k])) {
      var k :| 0 <= k < |hand| && !ShouldDisqualify(hand, top, color, Some(hand[k]));
      assert hand[k].IsWild() || hand[k].value == top.value || (!hand[k].IsWild() && hand[k].color == color);
    }
  }

  /** A claim that passes the test names a card the hand holds. */
  lemma {:induction false} ClaimFound(hand: seq<Card>, top: Card, color: Color, claim: Option<Card>)
    requires !ShouldDisqualify(hand, top, color, claim)
    ensures claim.Some? && 0 <= FindInHand(hand, claim.value) < |hand|
  {
  }

  /** An accepted card is a card of the hand, by colour and value, and a WildDraw4
      is only accepted when the player holds no card of the current colour. */
  lemma AcceptedPlay(hand: seq<Card>, top: Card, color: Color, c: Card)
    requires !ShouldDisqualify(hand, top, color, Some(c))
    ensures c.IsValid()
    ensures exists k :: 0 <= k < |hand| && SameFace(hand[k], c)
    ensures c.value == WILD_DRAW4 ==> !HaveMatchingColor(hand, color)
    ensures c.IsWild() || c.value == top.value || c.color == color
  {
    var k := FindInHand(hand, c);
    assert SameFace(hand[k], c);
  }

  /** countHandScore: the sum of the scores of the cards in the hand. */
  function HandScore(hand: seq<Card>): int {
    if hand == [] then 0 else HandScore(hand[..|hand| - 1]) + hand[|hand| - 1].Score()
  }

  lemma {:induction false} HandScoreAppend(a: seq<Card>, b: seq<Card>)
    ensures HandScore(a + b) == HandScore(a) + HandScore(b)
    decreases |b|
  {
    if b != [] {
      var n := |b| - 1;
      HandScoreAppend(a, b[..n]);
      assert (a + b)[..|a + b| - 1] == a + b[..n];
    } else {
      assert a + b == a;
    }
  }

  /** A hand of valid cards scores between 0 and 50 per card. */
  lemma {:induction false} HandScoreBounds(hand: seq<Card>)
    requires AllValid(hand)
    ensures 0 <= HandScore(hand) <= WILD_CARD_SCORE * |hand|
  {
    if hand != [] {
      HandScoreBounds(hand[..|hand| - 1]);
    }
  }

  /** Taking one card out of a hand lowers its score by exactly that card's score. */
  lemma HandScoreRemove(hand: seq<Card>, k: nat)
    requires k < |hand|
    ensures HandScore(hand[..k] + hand[k + 1..]) + hand[k].Score() == HandScore(hand)
  {
    HandScoreAppend(hand[..k], hand[k + 1..]);
    HandScoreAppend(hand[..k], [hand[k]]);
    HandScoreAppend(hand[..k] + [hand[k]], hand[k + 1..]);
    assert hand == hand[..k] + [hand[k]] + hand[k + 1..];
    assert HandScore([hand[k]]) == hand[k].Score() by {
      assert [hand[k]][..0] == [];
    }
  }

  /** The position of player p in the rotation (activePlayerIterator). */
  function Position(rot: seq<int>, p: int): (k: nat)
    requires p in rot
    ensures k < |rot| && rot[k] == p
    ensures forall j :: 0 <= j < k ==> rot[j] != p
  {
    if rot[0] == p then 0 else Position(rot[1..], p) + 1
  }

  /** nextPlayerIndex: the successor (Direct) or predecessor (Inverse) of the active
      player in the rotation, wrapping around at both ends. */
  function NextPlayerIndex(rot: seq<int>, active: int, dir: GameDirection): (r: int)
    requires active in rot
    ensures r in rot
  {
    var k := Position(rot, active);
    match dir
    case Direct => if k + 1 == |rot| then rot[0] else rot[k + 1]
    case Inverse => if k == 0 then rot[|rot| - 1] else rot[k - 1]
  }

  /** No player appears twice in the rotation. */
  predicate NoRepeats(rot: seq<int>) {
    forall i, j :: 0 <= i < j < |rot| ==> rot[i] != rot[j]
  }

  /** In a rotation without repeats the position of a listed player is the only one. */
  lemma PositionUnique(rot: seq<int>, k: nat)
    requires NoRepeats(rot) && k < |rot|
    ensures Position(rot, rot[k]) == k
  {
  }

  /** Direct moves one place forward in the rotation and Inverse one place back,
      wrapping around at both ends. */
  lemma NextPosition(rot: seq<int>, active: int, dir: GameDirection)
    requires NoRepeats(rot) && active in rot
    ensures var k := Position(rot, active);
      Position(rot, NextPlayerIndex(rot, active, dir)) ==
        if dir == Direct then (if k + 1 == |rot| then 0 else k + 1)
        else (if k == 0 then |rot| - 1 else k - 1)
  {
    var k := Position(rot, active);
    if dir == Direct {
      PositionUnique(rot, if k + 1 == |rot| then 0 else k + 1);
    } else {
      PositionUnique(rot, if k == 0 then |rot| - 1 else k - 1);
    }
  }

  /** The next player in one direction has the active player as the next player in
      the other direction. */
  lemma NextThenBack(rot: seq<int>, active: int)
    requires NoRepeats(rot) && active in rot
    ensures NextPlayerIndex(rot, NextPlayerIndex(rot, active, Direct), Inverse) == active
    ensures NextPlayerIndex(rot, NextPlayerIndex(rot, active, Inverse), Direct) == active
  {
    var k := Position(rot, active);
    var n := if k + 1 == |rot| then 0 else k + 1;
    var p := if k == 0 then |rot| - 1 else k - 1;
    PositionUnique(rot, n);
    PositionUnique(rot, p);
  }

  /** With two or more players the turn always passes to someone else; with exactly
      two it passes to the other player in both directions, so a Reverse changes
      nothing about who plays next. */
  lemma NextIsAnotherPlayer(rot: seq<int>, active: int, dir: GameDirection)
    requires NoRepeats(rot) && active in rot && |rot| >= 2
    ensures NextPlayerIndex(rot, active, dir) != active
    ensures |rot| == 2 ==> NextPlayerIndex(rot, active, dir) == NextPlayerIndex(rot, active, Direct)
  {
  }

  /** Removing the active player from the rotation (set_players.erase): the
      players before it keep their places and those after it move up one, in
      the same order. */
  function RemovePlayer(rot: seq<int>, active: int): (r: seq<int>)
    requires active in rot
    ensures |r| == |rot| - 1
    ensures NoRepeats(rot) ==> active !in r && forall p :: p in rot && p != active ==> p in r
    ensures forall p :: p in r ==> p in rot
    ensures var k := Position(rot, active); r[..k] == rot[..k] && r[k..] == rot[k + 1..]
  {
    var k := Position(rot, active);
    assert forall p :: p in rot[..k] + rot[k + 1..] ==> p in rot;
    if NoRepeats(rot) then
      assert forall p :: p in rot && p != active ==> p in rot[..k] + rot[k + 1..] by {
        forall p | p in rot && p != active
          ensures p in rot[..k] + rot[k + 1..]
        {
          var i :| 0 <= i < |rot| && rot[i] == p;
          if i < k { assert rot[..k][i] == p; } else { assert rot[k + 1..][i - k - 1] == p; }
        }
      }
      rot[..k] + rot[k + 1..]
    else
      rot[..k] + rot[k + 1..]
  }

  /** Number of times x occurs in s (std::count). */
  function Occurrences(s: seq<int>, x: int): nat {
    if s == [] then 0 else (if s[0] == x then 1 else 0) + Occurrences(s[1..], x)
  }

  lemma {:induction false} OccursOnce(s: seq<int>, x: int)
    ensures Occurrences(s, x) >= 1 <==> x in s
  {
    if s != [] {
      OccursOnce(s[1..], x);
      assert s == [s[0]] + s[1..];
    }
  }

  /** std::count finds more than one x exactly when x sits at two positions. */
  lemma {:induction false} OccursTwice(s: seq<int>, x: int)
    ensures Occurrences(s, x) >= 2 <==> exists i, j :: 0 <= i < j < |s| && s[i] == x && s[j] == x
  {
    if s != [] {
      var t := s[1..];
      OccursTwice(t, x);
      OccursOnce(t, x);
      if Occurrences(s, x) >= 2 {
        if s[0] == x {
          var j :| 0 <= j < |t| && t[j] == x;
          assert s[0] == x && s[j + 1] == x;
        } else {
          var i, j :| 0 <= i < j < |t| && t[i] == x && t[j] == x;
          assert s[i + 1] == x && s[j + 1] == x;
        }
      }
      if exists i, j :: 0 <= i < j < |s| && s[i] == x && s[j] == x {
        var i, j :| 0 <= i < j < |s| && s[i] == x && s[j] == x;
        if i == 0 {
          assert t[j - 1] == x;
        } else {
          assert t[i - 1] == x && t[j - 1] == x;
        }
      }
    }
  }

  /** The first position of the largest score (std::max_element). */
  function MaxIndex(s: seq<int>): (k: nat)
    requires |s| > 0
    ensures k < |s|
    ensures forall j :: 0 <= j < |s| ==> s[j] <= s[k]
    ensures forall j :: 0 <= j < k ==> s[j] < s[k]
  {
    if |s| == 1 then 0
    else
      var k := MaxIndex(s[..|s| - 1]);
      if s[|s| - 1] > s[k] then |s| - 1 else k
  }

  /** findWinner: the largest cumulative score, with the first player holding it,
      or -1 when it is held by more than one player. */
  function FindWinner(scores: seq<int>): (r: (int, int))
    requires |scores| > 0
  {
    var k := MaxIndex(scores);
    var best := scores[k];
    if Occurrences(scores, best) > 1 then (-1, best) else (k as int, best)
  }

  /** The returned score is the maximum; the index is -1 exactly when two players
      share it, and otherwise is the one player holding it. */
  lemma FindWinnerSpec(scores: seq<int>)
    requires |scores| > 0
    ensures var (w, best) := FindWinner(scores);
      best in scores && (forall j :: 0 <= j < |scores| ==> scores[j] <= best) &&
      (w == -1 <==> exists i, j :: 0 <= i < j < |scores| && scores[i] == best && scores[j] == best) &&
      (w != -1 ==> (0 <= w < |scores| && scores[w] == best &&
        forall j :: 0 <= j < |scores| && j != w ==> scores[j] < best))
  {
    var (w, best) := FindWinner(scores);
    OccursTwice(scores, best);
    if w != -1 {
      forall j | 0 <= j < |scores| && j != w
        ensures scores[j] < best
      {
        SharedScoreCountsTwice(scores, j, w);
      }
    }
  }

  lemma SharedScoreCountsTwice(s: seq<int>, i: nat, j: nat)
    requires i < |s| && j < |s| && i != j
    ensures s[i] == s[j] ==> Occurrences(s, s[j]) >= 2
  {
    OccursTwice(s, s[j]);
    if i < j {
      assert s[i] == s[j] ==> s[i] == s[j] && s[j] == s[j];
    } else {
      assert s[i] == s[j] ==> s[j] == s[j] && s[i] == s[j];
    }
  }
}
