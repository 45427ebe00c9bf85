/**
 * Trap placement of GroundGenerator: the in-place swap shuffle of the map's
 * keys and the choice of how many of them become spikes.
 */
module Traps {
  import opened Grid

  /** No entry occurs twice. */
  predicate Distinct<T(==)>(s: seq<T>)
  {
    forall i, j :: 0 <= i < j < |s| ==> s[i] != s[j]
  }

  /** `s` with the entries at `i` and `j` exchanged. */
  function Swap<T>(s: seq<T>, i: int, j: int): (r: seq<T>)
    requires 0 <= i < |s| && 0 <= j < |s|
    ensures |r| == |s|
  {
    s[i := s[j]][j := s[i]]
  }

  /** A draw sequence for the shuffle of `n` entries: one index in `[0, n)` per round. */
  predicate ShuffleDraws(draws: seq<int>, n: int)
  {
    |draws| == n && forall i :: 0 <= i < |draws| ==> 0 <= draws[i] < n
  }

  lemma SwapPermutes<T>(s: seq<T>, i: int, j: int)
    requires 0 <= i < |s| && 0 <= j < |s|
    ensures multiset(Swap(s, i, j)) == multiset(s)
  {
  }

  lemma SwapKeepsDistinct<T>(s: seq<T>, i: int, j: int)
    requires 0 <= i < |s| && 0 <= j < |s| && Distinct(s)
    ensures Distinct(Swap(s, i, j))
  {
    var r := Swap(s, i, j);
    assert forall k :: 0 <= k < |s| ==> r[k] == (if k == j then s[i] else if k == i then s[j] else s[k]);
  }

  /**
   * The list after the first `k` rounds of the shuffle: round `i` exchanges
   * entries `i` and `draws[i]`.
   */
  function ShuffleRounds<T>(s: seq<T>, draws: seq<int>, k: nat): (r: seq<T>)
    requires ShuffleDraws(draws, |s|) && k <= |s|
    ensures |r| == |s|
  {
    if k == 0 then s
    else Swap(ShuffleRounds(s, draws, k - 1), k - 1, draws[k - 1])
  }

  /** One round of the shuffle keeps the entries and their multiplicities. */
  lemma ShuffleStep<T>(s: seq<T>, draws: seq<int>, k: nat)
    requires ShuffleDraws(draws, |s|) && 0 < k <= |s|
    ensures multiset(ShuffleRounds(s, draws, k)) == multiset(ShuffleRounds(s, draws, k - 1))
  {
    SwapPermutes(ShuffleRounds(s, draws, k - 1), k - 1, draws[k - 1]);
  }

  /** The whole shuffle is a permutation of its input. */
  lemma ShufflePermutes<T>(s: seq<T>, draws: seq<int>)
    requires ShuffleDraws(draws, |s|)
    ensures multiset(ShuffleRounds(s, draws, |s|)) == multiset(s)
  {
    var k := 0;
    while k < |s|
      invariant k <= |s| && multiset(ShuffleRounds(s, draws, k)) == multiset(s)
    {
      k := k + 1;
      ShuffleStep(s, draws, k);
    }
  }

  /** The shuffle of a list free of repeats is free of repeats. */
  lemma {:induction false} ShuffleKeepsDistinct<T>(s: seq<T>, draws: seq<int>, k: nat)
    requires ShuffleDraws(draws, |s|) && k <= |s| && Distinct(s)
    ensures Distinct(ShuffleRounds(s, draws, k))
  {
    if k > 0 {
      var previous := ShuffleRounds(s, draws, k - 1);
      ShuffleKeepsDistinct(s, draws, k - 1);
      SwapKeepsDistinct(previous, k - 1, draws[k - 1]);
      assert ShuffleRounds(s, draws, k) == Swap(previous, k - 1, draws[k - 1]);
    }
  }

  /** Exchanges two entries of `list`. */
  method SwapEntries<T>(list: array<T>, i: int, j: int)
    requires 0 <= i < list.Length && 0 <= j < list.Length
    modifies list
    ensures list[..] == Swap(old(list[..]), i, j)
  {
    var temp := list[i];
    list[i] := list[j];
    list[j] := temp;
  }

  /**
   * Shuffles `list` in place: for each index `i` in turn, swap entry `i` with
   * the entry at a drawn index in `[0, list.Length)`.
   */
  method Shuffle<T>(list: array<T>, draws: seq<int>)
    requires ShuffleDraws(draws, list.Length)
    modifies list
    ensures list[..] == ShuffleRounds(old(list[..]), draws, list.Length)
  {
    for i := 0 to list.Length
      invariant list[..] == ShuffleRounds(old(list[..]), draws, i)
    {
      var randomIndex := draws[i];
      SwapEntries(list, i, randomIndex);
    }
  }

  /** The loop bound `Mathf.Min(level, count)`. */
  function NumberOfTraps(level: int, count: nat): (n: int)
    ensures n <= level && n <= count && (n == level || n == count)
  {
    if level < count then level else count
  }

  /**
   * How many spikes the placement loop lays: it runs while its index is below
   * `NumberOfTraps`, so not at all when the level is zero or negative.
   */
  function TrapCount(level: int, count: nat): (n: nat)
    ensures n <= count
    ensures level >= 0 ==> n == NumberOfTraps(level, count)
    ensures level <= 0 ==> n == 0
  {
    var bound := NumberOfTraps(level, count);
    if bound < 0 then 0 else bound
  }

  lemma DistinctPrefix<T>(s: seq<T>, n: nat)
    requires Distinct(s) && n <= |s|
    ensures Distinct(s[..n])
  {
    assert forall i :: 0 <= i < n ==> s[..n][i] == s[i];
  }

  /**
   * Lists the keys of `keys` once each, in an unspecified order: the
   * enumeration order of the dictionary's key collection.
   */
  method ListKeys(keys: set<Cell>) returns (order: seq<Cell>)
    ensures Distinct(order) && |order| == |keys|
    ensures forall c :: c in order <==> c in keys
  {
    order := [];
    var rest := keys;
    while rest != {}
      invariant rest <= keys && Distinct(order)
      invariant forall c :: c in order <==> c in keys - rest
      invariant |order| + |rest| == |keys|
      decreases rest
    {
      var k :| k in rest;
      assert k !in order;
      order := order + [k];
      rest := rest - {k};
    }
  }
}
