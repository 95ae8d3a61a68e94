/** What an iteration with a shuffle executes: a function of the registered tests, its seed and the shard alone. */
module ShuffledRuns {
  import opened Vectors
  import opened Shuffle
  import opened TestOrder
  import opened BlockShuffle
  import opened TestInfos
  import opened Registration
  import opened TestRuns

  // ----- Seeds -----

  const MAX_RANDOM_SEED := 99999

  type Seed = x: nat | 1 <= x <= MAX_RANDOM_SEED witness 1

  /** `GetNextRandomSeed` */
  function NextRandomSeed(seed: Seed): (next: Seed)
    ensures next == 1 + seed % MAX_RANDOM_SEED
  {
    if seed + 1 > MAX_RANDOM_SEED then 1 else seed + 1
  }

  /** The seed of the k-th iteration. */
  function SeedAt(seed: Seed, k: nat): Seed {
    if k == 0 then seed else NextRandomSeed(SeedAt(seed, k - 1))
  }

  lemma {:induction false} SeedsStart(seed: Seed)
    ensures SeedAt(seed, 0) == seed
  {
  }

  lemma {:induction false} SeedsStep(seed: Seed, k: nat)
    ensures SeedAt(seed, k + 1) == NextRandomSeed(SeedAt(seed, k))
  {
  }

  /** The seeds go round: all of them come up before one comes up again. */
  lemma {:induction false} SeedsGoRound(seed: Seed, k: nat)
    ensures SeedAt(seed, k) == 1 + (seed - 1 + k) % MAX_RANDOM_SEED
  {
    if k > 0 {
      SeedsGoRound(seed, k - 1);
    }
  }

  /** A run that starts from the seed of the k-th iteration goes on with the seeds of the iterations after it. */
  lemma {:induction false} SeedsGoOn(seed: Seed, k: nat, j: nat)
    ensures SeedAt(SeedAt(seed, k), j) == SeedAt(seed, k + j)
  {
    if j > 0 {
      SeedsGoOn(seed, k, j - 1);
    }
  }

  // ----- The order a seed leads to -----

  /** The tests of each test case, in the order of the lists before any shuffle. */
  ghost function Groups(tests: seq<TestInfo>): (groups: seq<seq<TestInfo>>)
    ensures |groups| == |Sorted(FirstNames(tests))|
    ensures forall i | 0 <= i < |groups| :: groups[i] == TestsOf(tests, Sorted(FirstNames(tests))[i])
  {
    var names := Sorted(FirstNames(tests));
    seq(|names|, i requires 0 <= i < |names| => TestsOf(tests, names[i]))
  }

  /** Death test cases are shuffled among themselves, then the others, and then the tests of each test case in turn. */
  ghost function OrderFrom(tests: seq<TestInfo>, seed: Seed): (lists: seq<seq<TestInfo>>)
    ensures |lists| == |Groups(tests)|
  {
    var groups, d := Groups(tests), |Deaths(FirstNames(tests))|;
    ShuffledInBlocks(ListsFrom(groups, d, seed), d, seed)
  }

  ghost function RunFrom(tests: seq<TestInfo>, seed: Seed, shard: seq<TestInfo>): seq<TestInfo> {
    Executed(OrderFrom(tests, seed), |OrderFrom(tests, seed)|, shard)
  }

  /** What an iteration executes. */
  ghost function Iteration(tests: seq<TestInfo>, shuffle: bool, seed: Seed, shard: seq<TestInfo>): seq<TestInfo> {
    if shuffle then RunFrom(tests, seed, shard) else shard
  }

  lemma {:induction false} NothingExecuted(lists: seq<seq<TestInfo>>, n: nat)
    requires n <= |lists|
    ensures Executed(lists, n, []) == []
  {
    if n > 0 {
      NothingExecuted(lists, n - 1);
      NothingKept(lists[n - 1], []);
    }
  }

  lemma {:induction false} NothingToRun(tests: seq<TestInfo>, shuffle: bool, seed: Seed)
    ensures Iteration(tests, shuffle, seed, []) == [] && RunsOnce([], [])
  {
    NothingExecuted(OrderFrom(tests, seed), |OrderFrom(tests, seed)|);
  }

  // ----- Repetitions -----

  /** Every iteration runs the shard once, in the order that its own seed leads to. */
  ghost predicate AllRunOnce(log: seq<seq<TestInfo>>, tests: seq<TestInfo>, shuffle: bool, seed: Seed, shard: seq<TestInfo>) {
    if log == [] then true
    else
      var n := |log| - 1;
      && AllRunOnce(log[..n], tests, shuffle, seed, shard)
      && RunsOnce(log[n], shard)
      && log[n] == Iteration(tests, shuffle, SeedAt(seed, n), shard)
  }

  lemma {:induction false} NoRunYet(tests: seq<TestInfo>, shuffle: bool, seed: Seed, shard: seq<TestInfo>)
    ensures AllRunOnce([], tests, shuffle, seed, shard)
  {
  }

  lemma {:induction false} IterationDoesNotShuffle(tests: seq<TestInfo>, seed: Seed, other: Seed, shard: seq<TestInfo>)
    ensures Iteration(tests, false, seed, shard) == Iteration(tests, false, other, shard)
  {
  }

  lemma {:induction false} AllRunOnceAt(log: seq<seq<TestInfo>>, tests: seq<TestInfo>, shuffle: bool, seed: Seed,
                                        shard: seq<TestInfo>, k: nat)
    requires AllRunOnce(log, tests, shuffle, seed, shard) && k < |log|
    ensures RunsOnce(log[k], shard) && log[k] == Iteration(tests, shuffle, SeedAt(seed, k), shard)
    decreases |log|
  {
    if k < |log| - 1 {
      AllRunOnceAt(log[..|log| - 1], tests, shuffle, seed, shard, k);
    }
  }

  lemma {:induction false} AllRunOnceGrows(log: seq<seq<TestInfo>>, ran: seq<TestInfo>, tests: seq<TestInfo>, shuffle: bool,
                                           seed: Seed, shard: seq<TestInfo>)
    requires AllRunOnce(log, tests, shuffle, seed, shard) && RunsOnce(ran, shard)
    requires ran == Iteration(tests, shuffle, SeedAt(seed, |log|), shard)
    ensures AllRunOnce(log + [ran], tests, shuffle, seed, shard)
  {
    assert (log + [ran])[..|log|] == log;
  }
}
