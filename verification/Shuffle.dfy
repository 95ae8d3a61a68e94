/** The random number generator and the in-place shuffle of a range of a vector. */
module Shuffle {
  import opened Vectors

  const MAX_RANGE := 0x8000_0000

  type UInt32 = x: nat | x < 0x1_0000_0000

  /** One step of the generator, with the wrap-around of 32-bit unsigned arithmetic. */
  function Next(state: UInt32): (r: UInt32)
    ensures r < MAX_RANGE
  {
    (1103515245 * state + 12345) % 0x1_0000_0000 % MAX_RANGE
  }

  class Random {
    var state: UInt32

    constructor (seed: UInt32)
      ensures state == seed
    {
      state := seed;
    }

    method Reseed(seed: UInt32)
      modifies this
      ensures state == seed
    {
      state := seed;
    }

    /** The checks of the source abort the program on a range that is 0 or too large. */
    method Generate(range: UInt32) returns (r: UInt32)
      requires 0 < range <= MAX_RANGE
      modifies this
      ensures state == Next(old(state))
      ensures r == Next(old(state)) % range
    {
      state := Next(state);
      r := state % range;
    }
  }

  // ----- Choices -----

  /** What is drawn while the range shrinks from `width` to 2: an index into what is left, each time. */
  predicate Choices(choices: seq<nat>, width: nat) {
    && |choices| == (if width < 2 then 0 else width - 1)
    && forall k | 0 <= k < |choices| :: choices[k] < width - k
  }

  /** The choices the generator makes from a state. */
  function Draws(state: UInt32, width: nat): (choices: seq<nat>)
    ensures Choices(choices, width)
    decreases width
  {
    if width < 2 then [] else [Next(state) % width] + Draws(Next(state), width - 1)
  }

  function After(state: UInt32, width: nat): UInt32
    decreases width
  {
    if width < 2 then state else After(Next(state), width - 1)
  }

  /** The order the choices lead to. */
  function Shuffled<T>(s: seq<T>, choices: seq<nat>): (t: seq<T>)
    requires Choices(choices, |s|)
    ensures |t| == |s|
    decreases |s|
  {
    if |s| < 2 then s
    else
      var last := |s| - 1;
      var t := Swapped(s, choices[0], last);
      Shuffled(t[..last], choices[1..]) + [t[last]]
  }

  /** The order the generator leads to from a state. */
  function ShuffledFrom<T>(s: seq<T>, state: UInt32): (t: seq<T>)
    ensures |t| == |s|
  {
    Shuffled(s, Draws(state, |s|))
  }

  // ----- The generator and the shuffle, step by step -----

  /** The state after `n` numbers have been drawn. */
  function NextTimes(state: UInt32, n: nat): UInt32 {
    if n == 0 then state else Next(NextTimes(state, n - 1))
  }

  lemma {:induction false} NextFirst(state: UInt32, n: nat)
    ensures NextTimes(Next(state), n) == NextTimes(state, n + 1)
  {
    if n > 0 {
      NextFirst(state, n - 1);
    }
  }

  /** The first numbers after the seed 0. */
  lemma {:induction false} FirstNumbers()
    ensures Next(0) == 12345 && Next(12345) == 1406932606 && Next(1406932606) == 654583775
  {
  }

  /** The k-th choice is the (k+1)-st number drawn, taken modulo what is left of the range. */
  lemma {:induction false} DrawsLaw(state: UInt32, width: nat, k: nat)
    requires k < |Draws(state, width)|
    ensures Draws(state, width)[k] == NextTimes(state, k + 1) % (width - k)
    decreases width
  {
    if k > 0 {
      DrawsLaw(Next(state), width - 1, k - 1);
      NextFirst(state, k);
    } else {
      assert NextTimes(state, 1) == Next(NextTimes(state, 0));
    }
  }

  /** One number less than the width is drawn. */
  lemma {:induction false} AfterLaw(state: UInt32, width: nat)
    ensures After(state, width) == NextTimes(state, if width < 2 then 0 else width - 1)
    decreases width
  {
    if width >= 2 {
      AfterLaw(Next(state), width - 1);
      NextFirst(state, width - 2);
    }
  }

  /**
   * The first choice says which element comes last; the last one takes its place, and the shuffle goes on with all but
   * the last place.
   */
  lemma {:induction false} ShuffledLaw<T>(s: seq<T>, choices: seq<nat>)
    requires Choices(choices, |s|) && |s| >= 2
    ensures var last := |s| - 1;
            var left := if choices[0] == last then s[..last] else s[..last][choices[0] := s[last]];
            Choices(choices[1..], last) && Shuffled(s, choices) == Shuffled(left, choices[1..]) + [s[choices[0]]]
  {
    var last := |s| - 1;
    var left := if choices[0] == last then s[..last] else s[..last][choices[0] := s[last]];
    assert Swapped(s, choices[0], last)[..last] == left;
  }

  lemma {:induction false} ShuffledExample()
    ensures Choices([1, 2, 0], 4) && Shuffled([10, 20, 30, 40], [1, 2, 0]) == [40, 10, 30, 20]
  {
    ShuffledLaw([10, 20, 30, 40], [1, 2, 0]);
    assert [10, 20, 30][1 := 40] == [10, 40, 30] && [10, 20, 30, 40][..3] == [10, 20, 30];
    assert [1, 2, 0][1..] == [2, 0] && [2, 0][1..] == [0] && [0][1..] == [];
    ShuffledLaw([10, 40, 30], [2, 0]);
    assert [10, 40, 30][..2] == [10, 40];
    ShuffledLaw([10, 40], [0]);
    assert [10, 40][..1][0 := 40] == [40];
    assert Shuffled([40], []) == [40];
  }

  // ----- The shuffle in place -----

  /** What a round does to the part of the range still to be shuffled and to the part that is done. */
  predicate Advance<T(==)>(mid: seq<T>, done: seq<T>, choice: nat, mid': seq<T>, done': seq<T>) {
    choice < |mid| && mid' + done' == Swapped(mid, choice, |mid| - 1) + done && |mid'| == |mid| - 1
  }

  lemma {:induction false} Step<T>(mid: seq<T>, done: seq<T>, choice: nat) returns (mid': seq<T>, done': seq<T>)
    requires choice < |mid|
    ensures Advance(mid, done, choice, mid', done')
  {
    var t := Swapped(mid, choice, |mid| - 1);
    SplitLast(t);
    mid', done' := t[..|mid| - 1], [t[|mid| - 1]] + done;
  }

  lemma {:induction false} AdvanceSplits<T>(mid: seq<T>, done: seq<T>, choice: nat, mid': seq<T>, done': seq<T>)
    requires Advance(mid, done, choice, mid', done')
    ensures var t := Swapped(mid, choice, |mid| - 1); mid' == t[..|mid| - 1] && done' == [t[|mid| - 1]] + done
  {
    var t := Swapped(mid, choice, |mid| - 1);
    assert mid' == (mid' + done')[..|mid| - 1] == (t + done)[..|mid| - 1];
    assert done' == (mid' + done')[|mid| - 1..] == (t + done)[|mid| - 1..];
  }

  lemma {:induction false} SwapInside<T>(s: seq<T>, s': seq<T>, i: nat, j: nat, pre: seq<T>, mid: seq<T>, done: seq<T>,
                                         post: seq<T>, choice: nat, mid': seq<T>, done': seq<T>)
    requires Advance(mid, done, choice, mid', done') && s == pre + (mid + done) + post
    requires i == |pre| + choice && j == |pre| + |mid| - 1 && s' == Swapped(s, i, j)
    ensures s' == pre + (mid' + done') + post
  {
  }

  /** One round of the loop does not change the order the remaining choices lead to. */
  lemma {:induction false} Round<T>(mid: seq<T>, done: seq<T>, state: UInt32, choice: nat, next: UInt32, all: seq<T>,
                                    mid': seq<T>, done': seq<T>)
    requires |mid| >= 2 && next == Next(state) && choice == next % |mid| && Advance(mid, done, choice, mid', done')
    requires Shuffled(mid, Draws(state, |mid|)) + done == all
    ensures Shuffled(mid', Draws(next, |mid'|)) + done' == all
  {
    AdvanceSplits(mid, done, choice, mid', done');
    assert Draws(state, |mid|)[1..] == Draws(Next(state), |mid| - 1);
  }

  /** `ShuffleRange` */
  method ShuffleRange<T>(random: Random, begin: nat, end: nat, v: Vector<T>)
    requires begin <= end <= |v.items| && end - begin <= MAX_RANGE
    modifies random, v
    ensures v.items == old(v.items[..begin])
                       + Shuffled(old(v.items[begin..end]), Draws(old(random.state), end - begin))
                       + old(v.items[end..])
    ensures random.state == After(old(random.state), end - begin) && |v.items| == |old(v.items)|
  {
    ghost var pre, mid, done, post := v.items[..begin], v.items[begin..end], [], v.items[end..];
    ghost var all := Shuffled(mid, Draws(random.state, end - begin));
    assert all + done == all && mid + done == mid;
    var width := end - begin;
    while width >= 2
      invariant width <= end - begin && |mid| == width
      invariant v.items == pre + (mid + done) + post
      invariant Shuffled(mid, Draws(random.state, |mid|)) + done == all
      invariant After(random.state, width) == After(old(random.state), end - begin)
    {
      ghost var now, state := v.items, random.state;
      var last := begin + width - 1;
      var choice := random.Generate(width);
      var selected := begin + choice;
      v.Swap(selected, last);
      ghost var mid', done' := Step(mid, done, choice);
      SwapInside(now, v.items, selected, last, pre, mid, done, post, choice, mid', done');
      Round(mid, done, state, choice, random.state, all, mid', done');
      mid, done := mid', done';
      width := width - 1;
    }
  }

  /** The range may be all of the vector. */
  lemma {:induction false} WholeRange<T>(was: seq<T>, state: UInt32, now: seq<T>)
    requires now == was[..0] + Shuffled(was[0..|was|], Draws(state, |was| - 0)) + was[|was|..]
    ensures now == ShuffledFrom(was, state)
    ensures multiset(now) == multiset(was)
  {
    assert was[0..|was|] == was;
    ShufflePermutes(was, Draws(state, |was|));
  }

  // ----- What the choices can reach -----

  lemma {:induction false} ShufflePermutes<T>(s: seq<T>, choices: seq<nat>)
    requires Choices(choices, |s|)
    ensures multiset(Shuffled(s, choices)) == multiset(s)
    decreases |s|
  {
    if |s| >= 2 {
      var last := |s| - 1;
      var t := Swapped(s, choices[0], last);
      SwapPermutes(s, choices[0], last);
      SplitLast(t);
      ShufflePermutes(t[..last], choices[1..]);
    }
  }

  lemma {:induction false} SwapKeepsDistinct<T>(s: seq<T>, i: nat, j: nat)
    requires i < |s| && j < |s| && NoDuplicates(s)
    ensures NoDuplicates(Swapped(s, i, j))
  {
  }

  /** Different choices lead to different orders. */
  lemma {:induction false} ShuffleIsInjective<T>(s: seq<T>, c: seq<nat>, d: seq<nat>)
    requires NoDuplicates(s) && Choices(c, |s|) && Choices(d, |s|)
    requires Shuffled(s, c) == Shuffled(s, d)
    ensures c == d
    decreases |s|
  {
    if |s| >= 2 {
      var last := |s| - 1;
      var t, u := Swapped(s, c[0], last), Swapped(s, d[0], last);
      var st, su := Shuffled(t[..last], c[1..]), Shuffled(u[..last], d[1..]);
      assert s[c[0]] == (st + [t[last]])[last] == (su + [u[last]])[last] == s[d[0]];
      assert c[0] == d[0];
      assert st == (st + [t[last]])[..last] == (su + [u[last]])[..last] == su;
      SwapKeepsDistinct(s, c[0], last);
      ShuffleIsInjective(t[..last], c[1..], d[1..]);
      assert c == [c[0]] + c[1..] && d == [d[0]] + d[1..];
    }
  }

  lemma {:induction false} SameInit<T>(s: seq<T>, t: seq<T>)
    requires multiset(s) == multiset(t) && |s| == |t| > 0 && s[|s| - 1] == t[|s| - 1]
    ensures multiset(s[..|s| - 1]) == multiset(t[..|s| - 1])
  {
    SplitLast(s);
    SplitLast(t);
    var x := multiset{s[|s| - 1]};
    assert multiset(s[..|s| - 1]) == multiset(s) - x && multiset(t[..|s| - 1]) == multiset(t) - x;
  }

  lemma {:induction false} OneOrder<T>(s: seq<T>, t: seq<T>)
    requires multiset(s) == multiset(t) && |s| == |t| < 2
    ensures s == t
  {
    if |s| == 1 {
      assert s[0] in multiset(t);
    }
  }

  lemma {:induction false} ChooseFirst<T>(s: seq<T>, k: nat, rest: seq<nat>, t: seq<T>)
    requires k < |s| && |s| >= 2 && |t| == |s| && t[|s| - 1] == s[k]
    requires Choices(rest, |s| - 1) && Shuffled(Swapped(s, k, |s| - 1)[..|s| - 1], rest) == t[..|s| - 1]
    ensures Choices([k] + rest, |s|) && Shuffled(s, [k] + rest) == t
  {
    assert ([k] + rest)[1..] == rest;
    SplitLast(t);
  }

  /** The first choice that leads to the order `t`: where its last element stands now. */
  lemma {:induction false} FirstChoice<T>(s: seq<T>, t: seq<T>) returns (k: nat)
    requires multiset(s) == multiset(t) && |s| == |t| >= 2
    ensures k < |s| && s[k] == t[|s| - 1]
    ensures multiset(Swapped(s, k, |s| - 1)[..|s| - 1]) == multiset(t[..|s| - 1])
  {
    var last := |s| - 1;
    SameElements(s, t);
    assert t[last] in s;
    k :| 0 <= k < |s| && s[k] == t[last];
    SwapPermutes(s, k, last);
    SameInit(Swapped(s, k, last), t);
  }

  /** Every order is reached. */
  lemma {:induction false} ShuffleIsSurjective<T>(s: seq<T>, t: seq<T>) returns (choices: seq<nat>)
    requires multiset(s) == multiset(t)
    ensures Choices(choices, |s|) && Shuffled(s, choices) == t
    decreases |s|
  {
    SameElements(s, t);
    if |s| < 2 {
      OneOrder(s, t);
      choices := [];
    } else {
      var last := |s| - 1;
      var k := FirstChoice(s, t);
      var rest := ShuffleIsSurjective(Swapped(s, k, last)[..last], t[..last]);
      ChooseFirst(s, k, rest, t);
      choices := [k] + rest;
    }
  }

  /** For a range of different elements, the choices and the orders correspond one to one. */
  lemma {:induction false} OneChoiceForEachOrder<T>(s: seq<T>, t: seq<T>)
    requires NoDuplicates(s)
    ensures multiset(s) == multiset(t) <==> exists c :: Choices(c, |s|) && Shuffled(s, c) == t
    ensures forall c, d | Choices(c, |s|) && Choices(d, |s|) && Shuffled(s, c) == t && Shuffled(s, d) == t :: c == d
  {
    if multiset(s) == multiset(t) {
      var c := ShuffleIsSurjective(s, t);
    }
    forall c | Choices(c, |s|) && Shuffled(s, c) == t
      ensures multiset(s) == multiset(t)
    {
      ShufflePermutes(s, c);
    }
    forall c, d | Choices(c, |s|) && Choices(d, |s|) && Shuffled(s, c) == t && Shuffled(s, d) == t
      ensures c == d
    {
      ShuffleIsInjective(s, c, d);
    }
  }

  // ----- The generator -----

  lemma {:induction false} NextIsCongruent(state: UInt32) returns (q: int)
    ensures Next(state) == 1103515245 * state + 12345 - MAX_RANGE * q
  {
    var x := 1103515245 * state + 12345;
    var y := x % 0x1_0000_0000;
    assert x == 0x1_0000_0000 * (x / 0x1_0000_0000) + y && y == MAX_RANGE * (y / MAX_RANGE) + y % MAX_RANGE;
    q := 2 * (x / 0x1_0000_0000) + y / MAX_RANGE;
  }

  lemma {:induction false} NearMultiple(x: int, k: int)
    requires -MAX_RANGE < x < MAX_RANGE && x == MAX_RANGE * k
    ensures x == 0
  {
  }

  /** Only the low 31 bits of a seed matter: seeds that agree on them lead to the same choices. */
  lemma {:induction false} DrawsIgnoreTopBit(state: UInt32, width: nat)
    requires state < MAX_RANGE
    ensures Draws(state, width) == Draws(state + MAX_RANGE, width)
  {
    var p := NextIsCongruent(state);
    var q := NextIsCongruent(state + MAX_RANGE);
    NearMultiple(Next(state) - Next(state + MAX_RANGE), q - p - 1103515245);
  }

  /** The multiplier has an inverse modulo 2^31, so no two of the generator's states have the same successor. */
  lemma {:induction false} NextIsInjective(a: UInt32, b: UInt32)
    requires a < MAX_RANGE && b < MAX_RANGE && Next(a) == Next(b)
    ensures a == b
  {
    var p := NextIsCongruent(a);
    var q := NextIsCongruent(b);
    assert 1103515245 * 1857678181 == 1 + 954594553 * MAX_RANGE;
    NearMultiple(a - b, 1857678181 * (p - q) - 954594553 * (a - b));
  }
}
