/** The Fisher–Yates shuffle that randomises the matchup order. The random
    source is a parameter: `draws[k]` is the index drawn at the k-th step,
    when the unshuffled prefix still has `c - k` cells. */
module Shuffling {

  /** Each draw lies in `[0, currentIndex)` for the step it is used in. */
  predicate DrawsFit(draws: seq<nat>, c: nat)
  {
    |draws| == c && forall k :: 0 <= k < c ==> draws[k] < c - k
  }

  function Swap<T>(s: seq<T>, i: nat, j: nat): (r: seq<T>)
    requires i < |s| && j < |s|
    ensures |r| == |s|
  {
    s[i := s[j]][j := s[i]]
  }

  /** The remaining steps of the shuffle once only `s[..c]` is still
      unshuffled: swap the last unshuffled cell with the drawn one, then go on
      with one cell fewer. */
  function ShuffleFrom<T>(s: seq<T>, draws: seq<nat>, c: nat): (r: seq<T>)
    requires c <= |s| && DrawsFit(draws, c)
    ensures |r| == |s|
    decreases c
  {
    if c == 0 then s
    else ShuffleFrom(Swap(s, c - 1, draws[0]), draws[1..], c - 1)
  }

  /** The whole shuffle of `s` under the given draws. */
  function Shuffled<T>(s: seq<T>, draws: seq<nat>): (r: seq<T>)
    requires DrawsFit(draws, |s|)
    ensures |r| == |s|
  {
    ShuffleFrom(s, draws, |s|)
  }

  lemma SwapPermutes<T>(s: seq<T>, i: nat, j: nat)
    requires i < |s| && j < |s|
    ensures multiset(Swap(s, i, j)) == multiset(s)
    ensures Swap(s, i, j)[i] == s[j] && Swap(s, i, j)[j] == s[i]
    ensures forall k :: 0 <= k < |s| && k != i && k != j ==> Swap(s, i, j)[k] == s[k]
  {
  }

  /** The shuffle is a permutation: same length, same multiset of elements. */
  lemma {:induction false} ShuffleFromPermutes<T>(s: seq<T>, draws: seq<nat>, c: nat)
    requires c <= |s| && DrawsFit(draws, c)
    ensures |ShuffleFrom(s, draws, c)| == |s|
    ensures multiset(ShuffleFrom(s, draws, c)) == multiset(s)
    decreases c
  {
    if c > 0 {
      SwapPermutes(s, c - 1, draws[0]);
      ShuffleFromPermutes(Swap(s, c - 1, draws[0]), draws[1..], c - 1);
    }
  }

  /** Cells at or beyond `c` are never touched again: each step only moves
      cells of the unshuffled prefix. */
  lemma {:induction false} ShuffleFromKeepsSuffix<T>(s: seq<T>, draws: seq<nat>, c: nat, k: nat)
    requires c <= k < |s| && DrawsFit(draws, c)
    ensures |ShuffleFrom(s, draws, c)| == |s| && ShuffleFrom(s, draws, c)[k] == s[k]
    decreases c
  {
    ShuffleFromPermutes(s, draws, c);
    if c > 0 {
      SwapPermutes(s, c - 1, draws[0]);
      ShuffleFromKeepsSuffix(Swap(s, c - 1, draws[0]), draws[1..], c - 1, k);
    }
  }

  /** The first step settles the last cell for good: it receives the element
      at the first drawn index. */
  lemma ShuffledLast<T>(s: seq<T>, draws: seq<nat>)
    requires |s| > 0 && DrawsFit(draws, |s|)
    ensures |Shuffled(s, draws)| == |s| && Shuffled(s, draws)[|s| - 1] == s[draws[0]]
  {
    var n := |s|;
    SwapPermutes(s, n - 1, draws[0]);
    ShuffleFromKeepsSuffix(Swap(s, n - 1, draws[0]), draws[1..], n - 1, n - 1);
  }

  /** Fisher–Yates in place: walks `currentIndex` down from the length to 0,
      swapping the cell just below it with the drawn cell. */
  method Shuffle<T>(a: array<T>, draws: seq<nat>)
    requires DrawsFit(draws, a.Length)
    modifies a
    ensures a[..] == Shuffled(old(a[..]), draws)
    ensures multiset(a[..]) == multiset(old(a[..]))
  {
    var currentIndex := a.Length;
    var step := 0;
    while currentIndex != 0
      invariant 0 <= currentIndex <= a.Length && step == a.Length - currentIndex
      invariant DrawsFit(draws[step..], currentIndex)
      invariant ShuffleFrom(a[..], draws[step..], currentIndex) == Shuffled(old(a[..]), draws)
      invariant multiset(a[..]) == multiset(old(a[..]))
    {
      var randomIndex := draws[step];
      currentIndex := currentIndex - 1;
      ghost var before := a[..];
      a[currentIndex], a[randomIndex] := a[randomIndex], a[currentIndex];
      assert a[..] == Swap(before, currentIndex, randomIndex);
      SwapPermutes(before, currentIndex, randomIndex);
      assert draws[step..][1..] == draws[step + 1..];
      step := step + 1;
    }
  }
}
