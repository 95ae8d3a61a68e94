/** Shuffling the test cases in two blocks, and the tests of each test case in turn. */
module BlockShuffle {
  import opened Vectors
  import opened Shuffle
  import opened TestOrder

  /** The order after a shuffle from a state of the generator: each block in an order of its own. */
  function ShuffledInBlocks<T>(s: seq<T>, d: nat, state: UInt32): (t: seq<T>)
    requires d <= |s|
    ensures |t| == |s|
  {
    Shuffled(s[..d], Draws(state, d)) + Shuffled(s[d..], Draws(After(state, d), |s| - d))
  }

  function AfterBlocks(n: nat, d: nat, state: UInt32): UInt32
    requires d <= n
  {
    After(After(state, d), n - d)
  }

  lemma {:induction false} FirstBlock(was: seq<nat>, d: nat, c: seq<nat>, now: seq<nat>)
    requires d <= |was| && Choices(c, d)
    requires now == was[..0] + Shuffled(was[0..d], c) + was[d..]
    ensures |now| == |was| && now[..d] == Shuffled(was[..d], c) && now[d..] == was[d..]
  {
    assert was[0..d] == was[..d];
  }

  lemma {:induction false} SecondBlock(was: seq<nat>, d: nat, e: seq<nat>, now: seq<nat>)
    requires d <= |was| && Choices(e, |was| - d)
    requires now == was[..d] + Shuffled(was[d..|was|], e) + was[|was|..]
    ensures now == was[..d] + Shuffled(was[d..], e)
  {
    assert was[d..|was|] == was[d..] && was[|was|..] == [];
  }

  lemma {:induction false} BlocksShuffled(was: seq<nat>, d: nat, state: UInt32, half: seq<nat>, between: UInt32,
                                          now: seq<nat>)
    requires d <= |was| == |half|
    requires half == was[..0] + Shuffled(was[0..d], Draws(state, d - 0)) + was[d..] && between == After(state, d - 0)
    requires now == half[..d] + Shuffled(half[d..|half|], Draws(between, |half| - d)) + half[|half|..]
    ensures now == ShuffledInBlocks(was, d, state)
  {
    FirstBlock(was, d, Draws(state, d), half);
    SecondBlock(half, d, Draws(between, |was| - d), now);
  }

  /** A shuffle keeps the blocks apart. */
  lemma {:induction false} BlocksStay(was: seq<nat>, d: nat, state: UInt32)
    requires InBlocks(was, d, |was|)
    ensures InBlocks(ShuffledInBlocks(was, d, state), d, |was|)
  {
    assert was == was[..d] + was[d..];
    ShuffledBlocks(was[..d], was[d..], Draws(state, d), Draws(After(state, d), |was| - d));
  }

  method ShuffleBlocks(random: Random, indices: Vector<nat>, d: nat)
    requires InBlocks(indices.items, d, |indices.items|) && |indices.items| <= MAX_RANGE
    modifies random, indices
    ensures indices.items == ShuffledInBlocks(old(indices.items), d, old(random.state))
    ensures InBlocks(indices.items, d, |old(indices.items)|)
    ensures random.state == AfterBlocks(|old(indices.items)|, d, old(random.state))
  {
    ghost var was, state := indices.items, random.state;
    ShuffleRange(random, 0, d, indices);
    ghost var half, between := indices.items, random.state;
    ShuffleRange(random, d, |indices.items|, indices);
    BlocksShuffled(was, d, state, half, between, indices.items);
    BlocksStay(was, d, state);
  }

  /** Shuffling the indices in blocks shuffles what they pick in blocks. */
  lemma {:induction false} PickBlocks<T>(items: seq<T>, indices: seq<nat>, d: nat, state: UInt32)
    requires AllBelow(indices, |items|) && d <= |indices|
    ensures AllBelow(ShuffledInBlocks(indices, d, state), |items|)
    ensures Pick(items, ShuffledInBlocks(indices, d, state)) == ShuffledInBlocks(Pick(items, indices), d, state)
  {
    var c, e := Draws(state, d), Draws(After(state, d), |indices| - d);
    PickShuffled(items, indices[..d], c);
    PickShuffled(items, indices[d..], e);
    PickParts(items, indices, d);
    PickJoined(items, Shuffled(indices[..d], c), Shuffled(indices[d..], e));
  }

  lemma {:induction false} PickParts<T>(items: seq<T>, indices: seq<nat>, d: nat)
    requires AllBelow(indices, |items|) && d <= |indices|
    ensures Pick(items, indices[..d]) == Pick(items, indices)[..d]
    ensures Pick(items, indices[d..]) == Pick(items, indices)[d..]
  {
  }

  lemma {:induction false} PickJoined<T>(items: seq<T>, a: seq<nat>, b: seq<nat>)
    requires AllBelow(a, |items|) && AllBelow(b, |items|)
    ensures AllBelow(a + b, |items|) && Pick(items, a + b) == Pick(items, a) + Pick(items, b)
  {
  }

  // ----- The tests within the test cases -----

  /** The lists to be shuffled, one for each test case, and the state of the generator. */
  datatype Deck<T> = Deck(lists: seq<seq<T>>, state: UInt32)

  /** One list is shuffled, and the generator moves on. */
  function ShuffleList<T>(deck: Deck<T>, i: nat): (next: Deck<T>)
    requires i < |deck.lists|
    ensures |next.lists| == |deck.lists|
  {
    Deck(deck.lists[i := ShuffledFrom(deck.lists[i], deck.state)], After(deck.state, |deck.lists[i]|))
  }

  /** Lists 0, 1, 2, ..., `k - 1` are shuffled in turn. */
  function ShuffleLists<T>(deck: Deck<T>, k: nat): (next: Deck<T>)
    requires k <= |deck.lists|
    ensures |next.lists| == |deck.lists|
  {
    if k == 0 then deck else ShuffleList(ShuffleLists(deck, k - 1), k - 1)
  }

  /** How many numbers are drawn to shuffle the first `k` lists. */
  function DrawCount<T>(lists: seq<seq<T>>, k: nat): nat
    requires k <= |lists|
  {
    if k == 0 then 0
    else DrawCount(lists, k - 1) + if |lists[k - 1]| < 2 then 0 else |lists[k - 1]| - 1
  }

  lemma {:induction false} NextAdds(state: UInt32, m: nat, n: nat)
    ensures NextTimes(NextTimes(state, m), n) == NextTimes(state, m + n)
  {
    if n > 0 {
      NextAdds(state, m, n - 1);
    }
  }

  lemma {:induction false} AfterAdds(state: UInt32, m: nat, width: nat)
    ensures After(NextTimes(state, m), width) == NextTimes(state, m + if width < 2 then 0 else width - 1)
  {
    AfterLaw(NextTimes(state, m), width);
    NextAdds(state, m, if width < 2 then 0 else width - 1);
  }

  lemma {:induction false} NextAfterNone(state: UInt32)
    ensures NextTimes(state, 0) == state
  {
  }

  /** The order drawn for list `i`, by the numbers that come after those for the lists before it. */
  function DrawnList<T>(deck: Deck<T>, i: nat): (list: seq<T>)
    requires i < |deck.lists|
    ensures |list| == |deck.lists[i]|
  {
    ShuffledFrom(deck.lists[i], NextTimes(deck.state, DrawCount(deck.lists, i)))
  }

  lemma {:induction false} ListsStep<T>(deck: Deck<T>, now: Deck<T>, k: nat)
    requires |now.lists| == |deck.lists| && k < |deck.lists| && now.lists[k] == deck.lists[k]
    requires now.state == NextTimes(deck.state, DrawCount(deck.lists, k))
    ensures ShuffleList(now, k).lists == now.lists[k := DrawnList(deck, k)]
    ensures ShuffleList(now, k).state == NextTimes(deck.state, DrawCount(deck.lists, k + 1))
  {
    AfterAdds(deck.state, DrawCount(deck.lists, k), |deck.lists[k]|);
  }

  /** Each list gets the order drawn for it. */
  lemma {:induction false} ListsLaw<T>(deck: Deck<T>, k: nat)
    requires k <= |deck.lists|
    ensures ShuffleLists(deck, k).state == NextTimes(deck.state, DrawCount(deck.lists, k))
    ensures forall i | 0 <= i < k :: ShuffleLists(deck, k).lists[i] == DrawnList(deck, i)
    ensures forall i | k <= i < |deck.lists| :: ShuffleLists(deck, k).lists[i] == deck.lists[i]
  {
    hide ShuffleList, DrawnList, NextTimes;
    if k == 0 {
      NextAfterNone(deck.state);
    } else {
      ListsLaw(deck, k - 1);
      ListsStep(deck, ShuffleLists(deck, k - 1), k - 1);
    }
  }

  /** How many numbers are drawn to shuffle two blocks of `n` items in all. */
  function BlockDraws(n: nat, d: nat): nat
    requires d <= n
  {
    (if d < 2 then 0 else d - 1) + (if n - d < 2 then 0 else n - d - 1)
  }

  lemma {:induction false} AfterBlocksLaw(n: nat, d: nat, state: UInt32)
    requires d <= n
    ensures AfterBlocks(n, d, state) == NextTimes(state, BlockDraws(n, d))
  {
    AfterLaw(state, d);
    AfterAdds(state, if d < 2 then 0 else d - 1, n - d);
  }

  /** The order drawn for list `i` when two blocks are shuffled first. */
  lemma {:induction false} DrawnAfterBlocks<T>(lists: seq<seq<T>>, d: nat, state: UInt32, i: nat)
    requires d <= |lists| && i < |lists|
    ensures DrawnList(Deck(lists, AfterBlocks(|lists|, d, state)), i)
         == ShuffledFrom(lists[i], NextTimes(state, BlockDraws(|lists|, d) + DrawCount(lists, i)))
  {
    AfterBlocksLaw(|lists|, d, state);
    NextAdds(state, BlockDraws(|lists|, d), DrawCount(lists, i));
  }

  /** Each block is shuffled by itself, the second with the numbers that come after those for the first. */
  lemma {:induction false} BlocksLaw<T>(s: seq<T>, d: nat, state: UInt32)
    requires d <= |s|
    ensures ShuffledInBlocks(s, d, state)
         == ShuffledFrom(s[..d], state) + ShuffledFrom(s[d..], NextTimes(state, if d < 2 then 0 else d - 1))
  {
    AfterLaw(state, d);
  }

  /** The lists shuffled in turn after two blocks. */
  function ListsFrom<T>(lists: seq<seq<T>>, d: nat, state: UInt32): (shuffled: seq<seq<T>>)
    requires d <= |lists|
    ensures |shuffled| == |lists|
  {
    ShuffleLists(Deck(lists, AfterBlocks(|lists|, d, state)), |lists|).lists
  }

  /** Each gets the order drawn for it, by the numbers that come after those for the blocks and the lists before it. */
  lemma {:induction false} ListsFromLaw<T>(lists: seq<seq<T>>, d: nat, state: UInt32, i: nat)
    requires d <= |lists| && i < |lists|
    ensures ListsFrom(lists, d, state)[i]
         == ShuffledFrom(lists[i], NextTimes(state, BlockDraws(|lists|, d) + DrawCount(lists, i)))
  {
    ListsLaw(Deck(lists, AfterBlocks(|lists|, d, state)), |lists|);
    DrawnAfterBlocks(lists, d, state, i);
  }

  lemma {:induction false} ShuffleNoLists<T>(deck: Deck<T>)
    ensures ShuffleLists(deck, 0) == deck
  {
  }

  /** The items of every list, in the order of its indices. */
  ghost predicate AllPicked<T>(items: seq<seq<T>>, orders: seq<seq<nat>>, lists: seq<seq<T>>) {
    && |items| == |orders| == |lists|
    && forall i | 0 <= i < |items| :: PickedAt(items, orders, lists, i)
  }

  ghost predicate PickedAt<T>(items: seq<seq<T>>, orders: seq<seq<nat>>, lists: seq<seq<T>>, i: nat)
    requires i < |items| == |orders| == |lists|
  {
    AllBelow(orders[i], |items[i]|) && lists[i] == Pick(items[i], orders[i])
  }

  /** The orders of lists that have not been shuffled. */
  function InPlace<T>(items: seq<seq<T>>): (orders: seq<seq<nat>>)
    ensures |orders| == |items| && forall i | 0 <= i < |items| :: orders[i] == Range(0, |items[i]|)
  {
    seq(|items|, i requires 0 <= i < |items| => Range(0, |items[i]|))
  }

  lemma {:induction false} OnePicked<T>(items: seq<seq<T>>, orders: Deck<nat>, lists: Deck<T>, k: nat)
    requires AllPicked(items, orders.lists, lists.lists) && orders.state == lists.state && k < |items|
    ensures AllPicked(items, ShuffleList(orders, k).lists, ShuffleList(lists, k).lists)
    ensures ShuffleList(orders, k).state == ShuffleList(lists, k).state
  {
    var o, l := ShuffleList(orders, k).lists, ShuffleList(lists, k).lists;
    assert PickedAt(items, orders.lists, lists.lists, k);
    PickShuffled(items[k], orders.lists[k], Draws(orders.state, |orders.lists[k]|));
    forall i | 0 <= i < |items|
      ensures PickedAt(items, o, l, i)
    {
      assert PickedAt(items, orders.lists, lists.lists, i);
    }
  }

  /** Shuffling lists of indices shuffles the lists of what they stand for. */
  lemma {:induction false} ShuffledListsPick<T>(items: seq<seq<T>>, state: UInt32, k: nat)
    requires k <= |items|
    ensures AllPicked(items, ShuffleLists(Deck(InPlace(items), state), k).lists, ShuffleLists(Deck(items, state), k).lists)
    ensures ShuffleLists(Deck(InPlace(items), state), k).state == ShuffleLists(Deck(items, state), k).state
  {
    if k == 0 {
      forall i | 0 <= i < |items|
        ensures PickedAt(items, InPlace(items), items, i)
      {
        PickAll(items[i]);
      }
    } else {
      ShuffledListsPick(items, state, k - 1);
      OnePicked(items, ShuffleLists(Deck(InPlace(items), state), k - 1), ShuffleLists(Deck(items, state), k - 1), k - 1);
    }
  }
}
