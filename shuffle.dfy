/**
 * The swap shuffle gioca applies to the indices of the living players at the
 * start of each round, as a function of the raw rand() values it consumes.
 */
module Shuffling {
  /** No index appears twice. */
  predicate NoRepeats(s: seq<int>)
  {
    forall i, j :: 0 <= i < j < |s| ==> s[i] != s[j]
  }

  /** The swap partner of a step: the raw draw reduced modulo the number of
      entries, over the whole range and not only the untouched suffix. */
  function Partner(raw: nat, n: int): (r: int)
    requires n > 0
    ensures 0 <= r < n
  {
    raw % n
  }

  /** Swapping entries i and r. */
  function Swap(s: seq<int>, i: int, r: int): (t: seq<int>)
    requires 0 <= i < |s| && 0 <= r < |s|
    ensures |t| == |s| && t[i] == s[r] && t[r] == s[i]
    ensures forall k :: 0 <= k < |s| && k != i && k != r ==> t[k] == s[k]
  {
    s[i := s[r]][r := s[i]]
  }

  /** A swap keeps the multiset of entries. */
  lemma SwapPermutes(s: seq<int>, i: int, r: int)
    requires 0 <= i < |s| && 0 <= r < |s|
    ensures multiset(Swap(s, i, r)) == multiset(s)
  {
    var u := s[i := s[r]];
    assert multiset(u) == multiset(s) - multiset{s[i]} + multiset{s[r]};
    assert multiset(u[r := s[i]]) == multiset(u) - multiset{u[r]} + multiset{s[i]};
  }

  /** The shuffle from step i on: step i swaps entry i with entry
      Partner(raws[i], |s|). */
  function ShuffleFrom(s: seq<int>, raws: seq<nat>, i: nat): (t: seq<int>)
    requires i <= |s| <= |raws|
    ensures |t| == |s|
    decreases |s| - i
  {
    if i == |s| then s else ShuffleFrom(Swap(s, i, Partner(raws[i], |s|)), raws, i + 1)
  }

  /** The shuffle only swaps, so its result is a permutation of its input. */
  lemma {:induction false} ShufflePermutes(s: seq<int>, raws: seq<nat>, i: nat)
    requires i <= |s| <= |raws|
    ensures multiset(ShuffleFrom(s, raws, i)) == multiset(s)
    decreases |s| - i
  {
    if i < |s| {
      var s' := Swap(s, i, Partner(raws[i], |s|));
      SwapPermutes(s, i, Partner(raws[i], |s|));
      ShufflePermutes(s', raws, i + 1);
    }
  }

  /** In a list without repetitions every value occurs at most once. */
  lemma {:induction false} OccursOnce(s: seq<int>, x: int)
    requires NoRepeats(s)
    ensures multiset(s)[x] <= 1
  {
    if |s| > 0 {
      var init := s[..|s| - 1];
      assert s == init + [s[|s| - 1]];
      assert NoRepeats(init);
      OccursOnce(init, x);
      if x == s[|s| - 1] {
        assert x !in init;
      }
    }
  }

  /** A value at two positions occurs at least twice. */
  lemma OccursTwice(t: seq<int>, i: int, j: int)
    requires 0 <= i < j < |t| && t[i] == t[j]
    ensures multiset(t)[t[i]] >= 2
  {
    assert t == t[..i] + [t[i]] + t[i + 1..j] + [t[j]] + t[j + 1..];
  }

  /** A permutation of a list without repetitions has none either. */
  lemma PermutationDistinct(s: seq<int>, t: seq<int>)
    requires multiset(s) == multiset(t)
    requires NoRepeats(s)
    ensures NoRepeats(t)
  {
    forall i, j | 0 <= i < j < |t| ensures t[i] != t[j] {
      if t[i] == t[j] {
        OccursTwice(t, i, j);
        OccursOnce(s, t[i]);
      }
    }
  }
}
