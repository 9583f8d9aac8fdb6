/** The check getCardsFromDeck applies to the cards a chooseCards override returns
    (game/uno_game.cpp): the deck is filtered (copy_if) to the cards that were not
    chosen, and the choice is refused unless exactly the requested number of cards
    left the deck. */
module ChosenCards {
  import opened Piles

  /** The deck cards that are not among the chosen ones, in deck order. */
  function Without(deck: seq<CardId>, chosen: seq<CardId>): (r: seq<CardId>)
    ensures |r| <= |deck|
  {
    if deck == [] then []
    else Without(deck[..|deck| - 1], chosen) + (if deck[|deck| - 1] in chosen then [] else [deck[|deck| - 1]])
  }

  /** The deck cards that are among the chosen ones, in deck order. */
  function Among(deck: seq<CardId>, chosen: seq<CardId>): (r: seq<CardId>)
    ensures |r| <= |deck|
  {
    if deck == [] then []
    else Among(deck[..|deck| - 1], chosen) + (if deck[|deck| - 1] in chosen then [deck[|deck| - 1]] else [])
  }

  lemma {:induction false} Split(deck: seq<CardId>, chosen: seq<CardId>)
    ensures multiset(deck) == multiset(Without(deck, chosen)) + multiset(Among(deck, chosen))
    ensures |deck| == |Without(deck, chosen)| + |Among(deck, chosen)|
  {
    if deck != [] {
      var n := |deck| - 1;
      var t, last := deck[..n], deck[n];
      Split(t, chosen);
      assert deck == t + [last];
      if last in chosen {
        assert Without(deck, chosen) == Without(t, chosen);
        assert Among(deck, chosen) == Among(t, chosen) + [last];
      } else {
        assert Without(deck, chosen) == Without(t, chosen) + [last];
        assert Among(deck, chosen) == Among(t, chosen);
      }
    }
  }

  lemma {:induction false} AmongElements(deck: seq<CardId>, chosen: seq<CardId>)
    ensures Elements(Among(deck, chosen)) == Elements(deck) * Elements(chosen)
    ensures Distinct(deck) ==> Distinct(Among(deck, chosen))
  {
    if deck != [] {
      var n := |deck| - 1;
      var t, last := deck[..n], deck[n];
      AmongElements(t, chosen);
      assert deck == t + [last];
      assert Elements(deck) == Elements(t) + {last};
      var at := Among(t, chosen);
      if last in chosen {
        assert Among(deck, chosen) == at + [last];
        assert Elements(at + [last]) == Elements(at) + {last};
        if Distinct(deck) {
          assert last !in Elements(t);
          assert last !in Elements(at);
          forall i, j | 0 <= i < j < |at + [last]|
            ensures (at + [last])[i] != (at + [last])[j]
          {
            if j == |at| {
              assert (at + [last])[i] == at[i] && at[i] in Elements(at);
            } else {
              assert (at + [last])[i] == at[i] && (at + [last])[j] == at[j];
            }
          }
        }
      } else {
        assert Among(deck, chosen) == at;
      }
    }
  }

  /** A sequence has at most as many distinct elements as it is long, and exactly
      as many when it has no repeats. */
  lemma {:induction false} ElementsSize(s: seq<CardId>)
    ensures |Elements(s)| <= |s|
    ensures |Elements(s)| == |s| <==> Distinct(s)
  {
    if s != [] {
      var t := s[..|s| - 1];
      var last := s[|s| - 1];
      ElementsSize(t);
      assert Elements(s) == Elements(t) + {last};
      if last in t {
        assert Elements(s) == Elements(t);
        var i :| 0 <= i < |t| && t[i] == last;
        assert s[i] == s[|s| - 1];
      } else {
        assert Distinct(s) <==> Distinct(t);
      }
    }
  }

  /** A repeat-free sequence holds each of its elements once. */
  lemma {:induction false} DistinctCounts(s: seq<CardId>, x: CardId)
    requires Distinct(s)
    ensures multiset(s)[x] == if x in s then 1 else 0
  {
    if s != [] {
      var t := s[..|s| - 1];
      DistinctCounts(t, x);
      assert s == t + [s[|s| - 1]];
      assert s[|s| - 1] !in t;
    }
  }

  lemma SubsetOfEqualSize(a: set<CardId>, b: set<CardId>)
    requires a <= b && |a| >= |b|
    ensures a == b
  {
    assert |b - a| + |a| == |b|;
  }

  /** The override's answer is accepted exactly when its cards are pairwise distinct
      and all in the deck; the deck then loses exactly those cards. */
  lemma ChosenAccepted(deck: seq<CardId>, chosen: seq<CardId>)
    requires Distinct(deck)
    ensures |Without(deck, chosen)| == |deck| - |chosen| <==>
      Distinct(chosen) && forall i :: 0 <= i < |chosen| ==> chosen[i] in deck
    ensures |Without(deck, chosen)| == |deck| - |chosen| ==>
      multiset(Without(deck, chosen)) + multiset(chosen) == multiset(deck)
  {
    var a := Among(deck, chosen);
    Split(deck, chosen);
    AmongElements(deck, chosen);
    ElementsSize(a);
    ElementsSize(chosen);
    if |a| == |chosen| {
      SubsetSize(Elements(a), Elements(chosen));
      assert Distinct(chosen);
      SubsetOfEqualSize(Elements(a), Elements(chosen));
      forall x
        ensures multiset(a)[x] == multiset(chosen)[x]
      {
        DistinctCounts(a, x);
        DistinctCounts(chosen, x);
        assert x in a <==> x in Elements(a);
        assert x in chosen <==> x in Elements(chosen);
      }
      assert multiset(a) == multiset(chosen);
      assert forall i :: 0 <= i < |chosen| ==> chosen[i] in Elements(chosen);
    }
    if Distinct(chosen) && forall i :: 0 <= i < |chosen| ==> chosen[i] in deck {
      assert Elements(chosen) <= Elements(deck);
      assert Elements(a) == Elements(chosen);
    }
  }
}
