/** Vectors of indices: a level of indirection that lets a list be shuffled and restored. */
module TestOrder {
  import opened Vectors
  import opened Shuffle

  function Range(lo: nat, hi: nat): (r: seq<nat>)
    requires lo <= hi
    ensures |r| == hi - lo && forall i | 0 <= i < hi - lo :: r[i] == lo + i
  {
    seq(hi - lo, i requires 0 <= i => lo + i)
  }

  lemma {:induction false} RangeGrows(items: seq<nat>, i: nat)
    requires i < |items| && items[..i] == Range(0, i)
    ensures items[i := i][..i + 1] == Range(0, i + 1)
  {
  }

  ghost predicate IsPermutation(indices: seq<nat>, n: nat) {
    multiset(indices) == multiset(Range(0, n))
  }

  predicate AllBelow(indices: seq<nat>, n: nat) {
    forall k | 0 <= k < |indices| :: indices[k] < n
  }

  /** The items in the order the indices give. */
  function Pick<T>(items: seq<T>, indices: seq<nat>): (picked: seq<T>)
    requires AllBelow(indices, |items|)
    ensures |picked| == |indices| && forall k | 0 <= k < |picked| :: picked[k] == items[indices[k]]
  {
    seq(|indices|, k requires 0 <= k < |indices| => items[indices[k]])
  }

  lemma {:induction false} IndicesAreInRange(indices: seq<nat>, n: nat)
    requires IsPermutation(indices, n)
    ensures |indices| == n && AllBelow(indices, n)
  {
    SameElements(indices, Range(0, n));
    forall k | 0 <= k < |indices|
      ensures indices[k] < n
    {
      assert indices[k] in Range(0, n);
    }
  }

  lemma {:induction false} PickAll<T>(items: seq<T>)
    ensures Pick(items, Range(0, |items|)) == items
  {
  }

  /** Shuffling the indices shuffles what they pick. */
  lemma {:induction false} PickShuffled<T>(items: seq<T>, indices: seq<nat>, choices: seq<nat>)
    requires AllBelow(indices, |items|) && Choices(choices, |indices|)
    ensures AllBelow(Shuffled(indices, choices), |items|)
    ensures Pick(items, Shuffled(indices, choices)) == Shuffled(Pick(items, indices), choices)
    decreases |indices|
  {
    if |indices| >= 2 {
      var n := |indices| - 1;
      var t := Swapped(indices, choices[0], n);
      PickSwapped(items, indices, choices[0], n);
      PickShuffled(items, t[..n], choices[1..]);
      PickAppend(items, Shuffled(t[..n], choices[1..]), t[n]);
    }
  }

  lemma {:induction false} PickSwapped<T>(items: seq<T>, indices: seq<nat>, i: nat, n: nat)
    requires AllBelow(indices, |items|) && i <= n == |indices| - 1
    ensures AllBelow(Swapped(indices, i, n), |items|)
    ensures var t := Swapped(indices, i, n);
            && Pick(items, t)[n] == items[t[n]]
            && Pick(items, t) == Swapped(Pick(items, indices), i, n)
            && Pick(items, t[..n]) == Swapped(Pick(items, indices), i, n)[..n]
  {
  }

  lemma {:induction false} PickAppend<T>(items: seq<T>, indices: seq<nat>, i: nat)
    requires AllBelow(indices, |items|) && i < |items|
    ensures AllBelow(indices + [i], |items|) && Pick(items, indices + [i]) == Pick(items, indices) + [items[i]]
  {
  }

  /** Going through the items by a permutation of their indices visits every item exactly once. */
  lemma {:induction false} PickPermutes<T>(items: seq<T>, indices: seq<nat>)
    requires IsPermutation(indices, |items|)
    ensures AllBelow(indices, |items|)
    ensures multiset(Pick(items, indices)) == multiset(items)
  {
    IndicesAreInRange(indices, |items|);
    var choices := ShuffleIsSurjective(Range(0, |items|), indices);
    PickShuffled(items, Range(0, |items|), choices);
    PickAll(items);
    ShufflePermutes(items, choices);
  }

  // ----- Two blocks: the death test cases, then the others -----

  /** The first `d` indices are those below `d`, in some order, and the rest are the rest. */
  ghost predicate InBlocks(indices: seq<nat>, d: nat, n: nat) {
    && |indices| == n
    && d <= n
    && multiset(indices[..d]) == multiset(Range(0, d))
    && multiset(indices[d..]) == multiset(Range(d, n))
  }

  lemma {:induction false} BlocksPermute(indices: seq<nat>, d: nat, n: nat)
    requires InBlocks(indices, d, n)
    ensures IsPermutation(indices, n)
  {
    assert indices == indices[..d] + indices[d..];
    assert Range(0, n) == Range(0, d) + Range(d, n);
  }

  lemma {:induction false} BlocksAreApart(indices: seq<nat>, d: nat, n: nat)
    requires InBlocks(indices, d, n)
    ensures forall i | 0 <= i < n :: indices[i] < d <==> i < d
  {
    SameElements(indices[..d], Range(0, d));
    SameElements(indices[d..], Range(d, n));
    forall i | 0 <= i < n
      ensures indices[i] < d <==> i < d
    {
      if i < d {
        assert indices[..d][i] in Range(0, d);
      } else {
        assert indices[d..][i - d] in Range(d, n);
      }
    }
  }

  lemma {:induction false} IdentityIsInBlocks(d: nat, n: nat)
    requires d <= n
    ensures InBlocks(Range(0, n), d, n)
  {
    assert Range(0, n)[..d] == Range(0, d) && Range(0, n)[d..] == Range(d, n);
  }

  lemma {:induction false} IdentityGrows(d: nat, n: nat)
    requires d <= n + 1
    ensures Range(0, n) + [n] == Range(0, n + 1) && InBlocks(Range(0, n + 1), d, n + 1)
  {
    IdentityIsInBlocks(d, n + 1);
  }

  lemma {:induction false} ShuffledBlocks(first: seq<nat>, rest: seq<nat>, c: seq<nat>, e: seq<nat>)
    requires InBlocks(first + rest, |first|, |first| + |rest|)
    requires Choices(c, |first|) && Choices(e, |rest|)
    ensures InBlocks(Shuffled(first, c) + Shuffled(rest, e), |first|, |first| + |rest|)
  {
    ShufflePermutes(first, c);
    ShufflePermutes(rest, e);
    var all := Shuffled(first, c) + Shuffled(rest, e);
    assert (first + rest)[..|first|] == first && (first + rest)[|first|..] == rest;
    assert all[..|first|] == Shuffled(first, c) && all[|first|..] == Shuffled(rest, e);
  }
}
