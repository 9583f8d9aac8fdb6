/** Seating of the players (UnoGame::shufflePlayers and shufflePlayers_ in
    game/uno_game.cpp). A seat holds the player registered as `id` and the index
    that player was told on entry and uses ever after (playerIndex_). */
module Seating {

  datatype Seat = Seat(id: nat, playerIndex: int)

  /** shufflePlayers accepts a permutation no longer than the number of players
      whose every value is a position in [0, n). */
  predicate PermutationFits(n: int, perm: seq<int>) {
    |perm| <= n && forall i :: 0 <= i < |perm| ==> 0 <= perm[i] < n
  }

  /** The sequence with the elements at positions i and j exchanged (iter_swap). */
  function Swap<T>(s: seq<T>, i: nat, j: nat): (r: seq<T>)
    requires i < |s| && j < |s|
    ensures |r| == |s| && r[i] == s[j] && r[j] == s[i]
    ensures forall k :: 0 <= k < |s| && k != i && k != j ==> r[k] == s[k]
  {
    s[i := s[j]][j := s[i]]
  }

  lemma SwapMultiset<T>(s: seq<T>, i: nat, j: nat)
    requires i < |s| && j < |s|
    ensures multiset(Swap(s, i, j)) == multiset(s)
  {
    if i != j {
      var t := s[i := s[j]];
      assert multiset(t) == multiset(s) - multiset{s[i]} + multiset{s[j]};
      assert multiset(t[j := s[i]]) == multiset(t) - multiset{t[j]} + multiset{s[i]};
    }
  }

  /** shufflePlayers_ from step i on: position i is exchanged with perm[i], then
      position i + 1 with perm[i + 1], and so on. */
  function ApplySwaps<T>(s: seq<T>, perm: seq<int>, i: nat): (r: seq<T>)
    requires i <= |perm| && PermutationFits(|s|, perm)
    ensures |r| == |s|
    decreases |perm| - i
  {
    if i == |perm| then s else ApplySwaps(Swap(s, i, perm[i]), perm, i + 1)
  }

  /** The exchanges only reorder: the result is a permutation of the input. */
  lemma {:induction false} ApplySwapsMultiset<T>(s: seq<T>, perm: seq<int>, i: nat)
    requires i <= |perm| && PermutationFits(|s|, perm)
    ensures multiset(ApplySwaps(s, perm, i)) == multiset(s)
    decreases |perm| - i
  {
    if i < |perm| {
      SwapMultiset(s, i, perm[i]);
      ApplySwapsMultiset(Swap(s, i, perm[i]), perm, i + 1);
    }
  }

  /** Players and their records are exchanged by the same swaps, so each record
      stays with its player. */
  lemma {:induction false} ApplySwapsPairs<A, B>(a: seq<A>, b: seq<B>, perm: seq<int>, i: nat, k: nat)
    requires |a| == |b| && i <= |perm| && PermutationFits(|a|, perm) && k < |a|
    ensures exists m :: 0 <= m < |a| && ApplySwaps(a, perm, i)[k] == a[m] && ApplySwaps(b, perm, i)[k] == b[m]
    decreases |perm| - i
  {
    if i == |perm| {
      assert ApplySwaps(a, perm, i)[k] == a[k] && ApplySwaps(b, perm, i)[k] == b[k];
    } else {
      var a' := Swap(a, i, perm[i]);
      var b' := Swap(b, i, perm[i]);
      ApplySwapsPairs(a', b', perm, i + 1, k);
      var m :| 0 <= m < |a'| && ApplySwaps(a', perm, i + 1)[k] == a'[m] && ApplySwaps(b', perm, i + 1)[k] == b'[m];
      var m' := if m == i then perm[i] else if m == perm[i] then i else m;
      assert a'[m] == a[m'] && b'[m] == b[m'];
    }
  }

  /** The seats as shufflePlayers_ leaves them: exchanged, with every player still
      holding the index it was given on entry. */
  function ShuffleAsWritten(seats: seq<Seat>, perm: seq<int>): seq<Seat>
    requires PermutationFits(|seats|, perm)
  {
    ApplySwaps(seats, perm, 0)
  }

  /** Every player's index is its seat number (what addPlayer establishes). */
  predicate Numbered(seats: seq<Seat>) {
    forall s :: 0 <= s < |seats| ==> seats[s].playerIndex == s
  }

  /** Each player is told its new seat number. */
  function Renumber(seats: seq<Seat>): (r: seq<Seat>)
    ensures |r| == |seats| && Numbered(r)
    ensures forall s :: 0 <= s < |seats| ==> r[s].id == seats[s].id
  {
    seq(|seats|, s requires 0 <= s < |seats| => Seat(seats[s].id, s))
  }

  /** The registration numbers of the seated players, seat by seat. */
  function PlayerIds(seats: seq<Seat>): (r: seq<nat>)
    ensures |r| == |seats| && forall s :: 0 <= s < |seats| ==> r[s] == seats[s].id
  {
    seq(|seats|, s requires 0 <= s < |seats| => seats[s].id)
  }

  /** The seating the engine relies on: the exchanges, then each player renumbered. */
  function ShuffleCorrected(seats: seq<Seat>, perm: seq<int>): seq<Seat>
    requires PermutationFits(|seats|, perm)
  {
    Renumber(ApplySwaps(seats, perm, 0))
  }

  lemma {:induction false} IdsOfSwaps(seats: seq<Seat>, perm: seq<int>, i: nat)
    requires i <= |perm| && PermutationFits(|seats|, perm)
    ensures PlayerIds(ApplySwaps(seats, perm, i)) == ApplySwaps(PlayerIds(seats), perm, i)
    decreases |perm| - i
  {
    if i < |perm| {
      assert PlayerIds(Swap(seats, i, perm[i])) == Swap(PlayerIds(seats), i, perm[i]);
      IdsOfSwaps(Swap(seats, i, perm[i]), perm, i + 1);
    }
  }

  /** The corrected seating keeps every seat numbered and seats the same players,
      in the order the exchanges produce. */
  lemma ShuffleCorrectedSpec(seats: seq<Seat>, perm: seq<int>)
    requires PermutationFits(|seats|, perm)
    ensures Numbered(ShuffleCorrected(seats, perm))
    ensures PlayerIds(ShuffleCorrected(seats, perm)) == ApplySwaps(PlayerIds(seats), perm, 0)
    ensures multiset(PlayerIds(ShuffleCorrected(seats, perm))) == multiset(PlayerIds(seats))
  {
    IdsOfSwaps(seats, perm, 0);
    assert PlayerIds(ShuffleCorrected(seats, perm)) == PlayerIds(ApplySwaps(seats, perm, 0));
    ApplySwapsMultiset(PlayerIds(seats), perm, 0);
  }

  /** As written, two numbered players exchanged by the permutation [1] keep their
      old indices, so the seats are no longer numbered. */
  lemma ShuffleAsWrittenBreaksNumbering()
    ensures var seats := [Seat(0, 0), Seat(1, 1)];
      Numbered(seats) && PermutationFits(2, [1]) &&
      ShuffleAsWritten(seats, [1]) == [Seat(1, 1), Seat(0, 0)] &&
      !Numbered(ShuffleAsWritten(seats, [1]))
  {
    var seats := [Seat(0, 0), Seat(1, 1)];
    assert ApplySwaps(seats, [1], 0) == ApplySwaps(Swap(seats, 0, 1), [1], 1);
  }
}
