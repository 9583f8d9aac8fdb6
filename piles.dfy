/** Card piles as sequences of card identities (the deck, the discard pile and the
    hands of uno_game.cpp hold pointers into one arena of cards; here they hold
    indices into it). The helpers below say how moving cards between piles keeps
    the pooled multiset of identities. */
module Piles {

  type CardId = nat

  /** The identities 0..n-1 of an arena of n cards, in creation order. */
  function Ids(n: nat): (r: seq<CardId>)
    ensures |r| == n
    ensures forall k :: 0 <= k < n ==> r[k] == k
  {
    seq(n, k requires 0 <= k < n => k)
  }

  /** No identity occurs twice. */
  predicate Distinct(s: seq<CardId>) {
    forall i, j :: 0 <= i < j < |s| ==> s[i] != s[j]
  }

  /** The sequence read from its last element to its first. */
  function Reversed(s: seq<CardId>): (r: seq<CardId>)
    ensures |r| == |s|
    ensures forall k :: 0 <= k < |s| ==> r[k] == s[|s| - 1 - k]
  {
    if s == [] then [] else Reversed(s[1..]) + [s[0]]
  }

  lemma {:induction false} ReversedKeepsMultiset(s: seq<CardId>)
    ensures multiset(Reversed(s)) == multiset(s)
  {
    if s != [] {
      ReversedKeepsMultiset(s[1..]);
      assert s == [s[0]] + s[1..];
    }
  }

  /** The sequence without its element at position k. */
  function RemoveAt<T>(s: seq<T>, k: nat): (r: seq<T>)
    requires k < |s|
    ensures |r| == |s| - 1
    ensures forall i :: 0 <= i < k ==> r[i] == s[i]
    ensures forall i :: k <= i < |r| ==> r[i] == s[i + 1]
  {
    s[..k] + s[k + 1..]
  }

  lemma RemoveAtMultiset<T>(s: seq<T>, k: nat)
    requires k < |s|
    ensures multiset(RemoveAt(s, k)) == multiset(s) - multiset{s[k]}
    ensures multiset(RemoveAt(s, k)) + multiset{s[k]} == multiset(s)
  {
    assert s == s[..k] + [s[k]] + s[k + 1..];
  }

  /** The pooled multiset of identities held in a family of piles (all the hands). */
  function Pool(piles: seq<seq<CardId>>): multiset<CardId>
  {
    if piles == [] then multiset{} else Pool(piles[..|piles| - 1]) + multiset(piles[|piles| - 1])
  }

  /** Replacing one pile changes the pool by exactly that pile's difference. */
  lemma {:induction false} PoolUpdate(piles: seq<seq<CardId>>, p: nat, pile: seq<CardId>)
    requires p < |piles|
    ensures Pool(piles[p := pile]) + multiset(piles[p]) == Pool(piles) + multiset(pile)
    decreases |piles|
  {
    var last := |piles| - 1;
    assert Pool(piles) == Pool(piles[..last]) + multiset(piles[last]);
    assert Pool(piles[p := pile]) == Pool(piles[p := pile][..last]) + multiset(piles[p := pile][last]);
    if p == last {
      assert piles[p := pile][..last] == piles[..last];
    } else {
      assert piles[p := pile][..last] == piles[..last][p := pile];
      assert piles[p := pile][last] == piles[last];
      assert piles[..last][p] == piles[p];
      PoolUpdate(piles[..last], p, pile);
      calc {
        Pool(piles[p := pile]) + multiset(piles[p]);
        Pool(piles[..last][p := pile]) + multiset(piles[last]) + multiset(piles[p]);
        Pool(piles[..last][p := pile]) + multiset(piles[p]) + multiset(piles[last]);
        Pool(piles[..last]) + multiset(pile) + multiset(piles[last]);
        Pool(piles) + multiset(pile);
      }
    }
  }

  /** A family of empty piles pools nothing. */
  lemma {:induction false} PoolOfEmpties(piles: seq<seq<CardId>>)
    requires forall p :: 0 <= p < |piles| ==> piles[p] == []
    ensures Pool(piles) == multiset{}
    decreases |piles|
  {
    if piles != [] {
      PoolOfEmpties(piles[..|piles| - 1]);
    }
  }

  /** Every identity in one pile is in the pool. */
  lemma {:induction false} PoolContains(piles: seq<seq<CardId>>, p: nat)
    requires p < |piles|
    ensures multiset(piles[p]) <= Pool(piles)
    decreases |piles|
  {
    if p < |piles| - 1 {
      PoolContains(piles[..|piles| - 1], p);
    }
  }

  /** A sequence whose multiset holds each identity at most once has no repeats. */
  lemma NoRepeatsIsDistinct(s: seq<CardId>)
    requires forall x :: multiset(s)[x] <= 1
    ensures Distinct(s)
  {
    forall i, j | 0 <= i < j < |s|
      ensures s[i] != s[j]
    {
      RepeatCountsTwice(s, i, j);
    }
  }

  lemma RepeatCountsTwice(s: seq<CardId>, i: nat, j: nat)
    requires i < j < |s|
    ensures s[i] == s[j] ==> multiset(s)[s[i]] >= 2
  {
    assert s == s[..i] + [s[i]] + s[i + 1..j] + [s[j]] + s[j + 1..];
  }

  /** The set of identities a pile holds. */
  function Elements(s: seq<CardId>): set<CardId> {
    set x | x in s
  }

  /** The elements of a repeat-free sequence make a set of the same size. */
  lemma {:induction false} DistinctSetSize(s: seq<CardId>)
    requires Distinct(s)
    ensures |Elements(s)| == |s|
  {
    if s != [] {
      var t := s[..|s| - 1];
      DistinctSetSize(t);
      var last := s[|s| - 1];
      assert last !in Elements(t);
      assert Elements(s) == Elements(t) + {last};
    }
  }

  /** A subset is no larger than its superset. */
  lemma {:induction false} SubsetSize(a: set<CardId>, b: set<CardId>)
    requires a <= b
    ensures |a| <= |b|
    decreases |b|
  {
    if a != {} {
      var x :| x in a;
      SubsetSize(a - {x}, b - {x});
    }
  }

  /** Each identity of the arena occurs once in Ids(n), and no other occurs. */
  lemma {:induction false} IdsCount(n: nat, x: CardId)
    ensures multiset(Ids(n))[x] == if x < n then 1 else 0
  {
    if n > 0 {
      IdsCount(n - 1, x);
      assert Ids(n) == Ids(n - 1) + [n - 1];
    }
  }

  /** A position of x in s, or -1 (std::find); IndexOfFirst says which. */
  function IndexOf(s: seq<CardId>, x: CardId): (k: int)
    ensures -1 <= k < |s|
    ensures k >= 0 ==> s[k] == x
  {
    if s == [] then -1
    else if s[0] == x then 0
    else
      var k := IndexOf(s[1..], x);
      if k < 0 then -1 else k + 1
  }

  /** IndexOf gives the first position of x in s, and -1 exactly when x is
      not in s. */
  lemma {:induction false} IndexOfFirst(s: seq<CardId>, x: CardId)
    ensures var k := IndexOf(s, x);
      (k >= 0 ==> forall j :: 0 <= j < k ==> s[j] != x) && (k == -1 <==> x !in s)
  {
    if s != [] && s[0] != x {
      IndexOfFirst(s[1..], x);
      assert s == [s[0]] + s[1..];
    }
  }

  /** The piles laid end to end, first pile first. */
  function Concat(piles: seq<seq<CardId>>): (r: seq<CardId>)
  {
    if piles == [] then [] else Concat(piles[..|piles| - 1]) + piles[|piles| - 1]
  }

  /** Laying the piles end to end keeps every identity they pool. */
  lemma {:induction false} ConcatKeepsPool(piles: seq<seq<CardId>>)
    ensures multiset(Concat(piles)) == Pool(piles)
    decreases |piles|
  {
    if piles != [] {
      ConcatKeepsPool(piles[..|piles| - 1]);
    }
  }
}
