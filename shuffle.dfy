/** std::shuffle driven by the engine's random generator. The generator is not
    modelled: `draw(k)` is its k-th draw, any natural number, and the pass picks
    the next element among those left, so every run of draws yields a permutation. */
module Shuffling {
  import opened Piles

  function Shuffled<T>(s: seq<T>, draw: nat -> nat, k: nat): (r: seq<T>)
    ensures |r| == |s|
    decreases |s|
  {
    if s == [] then []
    else
      var i := Pick(draw(k), |s|);
      [s[i]] + Shuffled(s[..i] + s[i + 1..], draw, k + 1)
  }

  /** A shuffle only reorders: the outcome is a permutation of its input. */
  lemma {:induction false} ShuffledIsPermutation<T>(s: seq<T>, draw: nat -> nat, k: nat)
    ensures multiset(Shuffled(s, draw, k)) == multiset(s)
    decreases |s|
  {
    if s != [] {
      var i := Pick(draw(k), |s|);
      RemoveAtMultiset(s, i);
      ShuffledIsPermutation(RemoveAt(s, i), draw, k + 1);
    }
  }

  /** Every ordering of the elements is the outcome of some run of draws. */
  lemma {:induction false} EveryOrderReachable<T>(s: seq<T>, t: seq<T>, k: nat) returns (draw: nat -> nat)
    requires multiset(t) == multiset(s)
    ensures Shuffled(s, draw, k) == t
    decreases |s|
  {
    if s == [] {
      draw := _ => 0;
      assert |multiset(t)| == |t|;
    } else {
      assert |t| == |s| by {
        assert |multiset(t)| == |t| && |multiset(s)| == |s|;
      }
      assert t[0] in s by {
        assert t[0] in multiset(t);
      }
      var i :| 0 <= i < |s| && s[i] == t[0];
      var s' := s[..i] + s[i + 1..];
      RemoveAtMultiset(s, i);
      assert s' == RemoveAt(s, i);
      assert t == [t[0]] + t[1..];
      assert multiset(t[1..]) == multiset(s');
      var rest := EveryOrderReachable(s', t[1..], k + 1);
      draw := FirstPick(s, i, rest, k);
    }
  }

  /** A pass from step k on reads only the draws numbered k and later. */
  lemma {:induction false} ShuffledIgnoresEarlierDraws<T>(s: seq<T>, d1: nat -> nat, d2: nat -> nat, k: nat)
    requires forall j :: j >= k ==> d1(j) == d2(j)
    ensures Shuffled(s, d1, k) == Shuffled(s, d2, k)
    decreases |s|
  {
    if s != [] {
      var i := Pick(d1(k), |s|);
      ShuffledIgnoresEarlierDraws(s[..i] + s[i + 1..], d1, d2, k + 1);
    }
  }

  /** Draw k can pick any element first without disturbing what later draws pick. */
  lemma FirstPick<T>(s: seq<T>, i: nat, rest: nat -> nat, k: nat) returns (draw: nat -> nat)
    requires i < |s|
    ensures Shuffled(s, draw, k) == [s[i]] + Shuffled(s[..i] + s[i + 1..], rest, k + 1)
  {
    draw := j => if j == k then i else rest(j);
    ShuffledIgnoresEarlierDraws(s[..i] + s[i + 1..], rest, draw, k + 1);
    assert draw(k) == i;
  }

  /** The position a draw d picks among n remaining elements. */
  function Pick(d: nat, n: nat): (i: nat)
    requires n > 0
    ensures i < n
    ensures d < n ==> i == d
  {
    d % n
  }
}
