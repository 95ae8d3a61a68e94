/** Which tests a shard runs, and what the shards run together. */
module ShardSelection {
  import opened Vectors
  import opened Sharding
  import opened TestFilter
  import opened TestInfos
  import opened TestNames
  import opened TestCases
  import opened Registration

  datatype ReactionToSharding = IgnoreSharding | HonorSharding(totalShards: nat, shardIndex: nat) {
    /** What `ShouldShard` checks before sharding is honoured. */
    predicate Valid() {
      HonorSharding? ==> shardIndex < totalShards
    }

    function Total(): nat {
      if HonorSharding? then totalShards else 1
    }

    function Index(): nat {
      if HonorSharding? then shardIndex else 0
    }

    /** Whether a runnable test of this number is selected. Ignoring shards is being the only shard. */
    predicate Takes(testId: nat)
      requires Valid()
      ensures Takes(testId) <==> Turn(testId, Total()) == Index()
    {
      TurnIsRemainder(testId, Total());
      IgnoreSharding? || ShouldRunTestOnShard(totalShards, shardIndex, testId)
    }
  }

  ghost predicate Decided(all: seq<TestInfo>, p: nat, verdicts: seq<Verdict>, options: Options)
    requires p < |all| == |verdicts|
  {
    verdicts[p] == all[p].VerdictOf(options)
  }

  ghost function VerdictsOf(all: seq<TestInfo>, options: Options): (verdicts: seq<Verdict>)
    ensures |verdicts| == |all| && forall p | 0 <= p < |all| :: Decided(all, p, verdicts, options)
  {
    seq(|all|, p requires 0 <= p < |all| => all[p].VerdictOf(options))
  }

  /** The runnable tests at the first `p` positions. */
  ghost function RunnableOf(all: seq<TestInfo>, verdicts: seq<Verdict>, p: nat): (runnable: seq<TestInfo>)
    requires p <= |all| == |verdicts|
  {
    if p == 0 then []
    else RunnableOf(all, verdicts, p - 1) + if verdicts[p - 1].isRunnable then [all[p - 1]] else []
  }

  /** Those of them that one shard runs. */
  ghost function ShardOf(all: seq<TestInfo>, verdicts: seq<Verdict>, p: nat, sharding: ReactionToSharding): seq<TestInfo>
    requires p <= |all| == |verdicts| && sharding.Valid()
  {
    Dealt(RunnableOf(all, verdicts, p), sharding.Total(), sharding.Index())
  }

  /** The test at a position is runnable, and its number among the runnable tests is one of this shard's. */
  ghost predicate SelectedAt(all: seq<TestInfo>, verdicts: seq<Verdict>, p: nat, sharding: ReactionToSharding)
    requires p < |all| == |verdicts| && sharding.Valid()
  {
    verdicts[p].isRunnable && Turn(|RunnableOf(all, verdicts, p)|, sharding.Total()) == sharding.Index()
  }

  /** The records of the test at a position. */
  ghost predicate Marked(all: seq<TestInfo>, verdicts: seq<Verdict>, p: nat, sharding: ReactionToSharding)
    requires p < |all| == |verdicts| && sharding.Valid()
    reads all[p]
  {
    && all[p].isDisabled == verdicts[p].isDisabled
    && all[p].matchesFilter == verdicts[p].matchesFilter
    && all[p].shouldRun == SelectedAt(all, verdicts, p, sharding)
  }

  /** The two counters, of runnable and of selected tests. */
  datatype Counters = Counters(runnable: nat, selected: nat)

  /** The counters once the tests before a position have been looked at. */
  ghost function CountersAt(all: seq<TestInfo>, verdicts: seq<Verdict>, p: nat, sharding: ReactionToSharding): Counters
    requires p <= |all| == |verdicts| && sharding.Valid()
  {
    Counters(|RunnableOf(all, verdicts, p)|, |ShardOf(all, verdicts, p, sharding)|)
  }

  /** Some test at a position from `lo` up to `hi` is selected. */
  ghost predicate AnySelected(all: seq<TestInfo>, verdicts: seq<Verdict>, lo: nat, hi: nat, sharding: ReactionToSharding)
    requires hi <= |all| == |verdicts| && sharding.Valid()
  {
    lo < hi && (AnySelected(all, verdicts, lo, hi - 1, sharding) || SelectedAt(all, verdicts, hi - 1, sharding))
  }

  lemma {:induction false} SelectedIsAny(all: seq<TestInfo>, verdicts: seq<Verdict>, lo: nat, p: nat, hi: nat,
                                         sharding: ReactionToSharding)
    requires lo <= p < hi <= |all| == |verdicts| && sharding.Valid() && SelectedAt(all, verdicts, p, sharding)
    ensures AnySelected(all, verdicts, lo, hi, sharding)
    decreases hi
  {
    if p < hi - 1 {
      SelectedIsAny(all, verdicts, lo, p, hi - 1, sharding);
    }
  }

  lemma {:induction false} AnyIsSelected(all: seq<TestInfo>, verdicts: seq<Verdict>, lo: nat, hi: nat,
                                         sharding: ReactionToSharding) returns (p: nat)
    requires hi <= |all| == |verdicts| && sharding.Valid() && AnySelected(all, verdicts, lo, hi, sharding)
    ensures lo <= p < hi && SelectedAt(all, verdicts, p, sharding)
    decreases hi
  {
    if SelectedAt(all, verdicts, hi - 1, sharding) {
      p := hi - 1;
    } else {
      p := AnyIsSelected(all, verdicts, lo, hi - 1, sharding);
    }
  }

  /** One more test adds that test to what the shard runs, or nothing. */
  lemma {:induction false} ShardStep(all: seq<TestInfo>, verdicts: seq<Verdict>, p: nat, sharding: ReactionToSharding)
    requires p < |all| == |verdicts| && sharding.Valid()
    ensures ShardOf(all, verdicts, p + 1, sharding)
         == ShardOf(all, verdicts, p, sharding) + if SelectedAt(all, verdicts, p, sharding) then [all[p]] else []
  {
    DealtGrows(RunnableOf(all, verdicts, p), all[p], verdicts[p].isRunnable, RunnableOf(all, verdicts, p + 1),
               sharding.Total(), sharding.Index());
  }

  lemma {:induction false} CountedStep(now: Counters, all: seq<TestInfo>, verdicts: seq<Verdict>, p: nat,
                                       sharding: ReactionToSharding, isRunnable: bool, isSelected: bool, next: Counters)
    requires p < |all| == |verdicts| && sharding.Valid() && now == CountersAt(all, verdicts, p, sharding)
    requires isRunnable == verdicts[p].isRunnable && isSelected == SelectedAt(all, verdicts, p, sharding)
    requires next == Counters(now.runnable + if isRunnable then 1 else 0, now.selected + if isSelected then 1 else 0)
    ensures next == CountersAt(all, verdicts, p + 1, sharding)
  {
    ShardStep(all, verdicts, p, sharding);
  }

  /** A test case is to run when one of its tests is selected. */
  ghost predicate CaseMarked(testCase: TestCase, start: nat, end: nat, all: seq<TestInfo>, verdicts: seq<Verdict>,
                             sharding: ReactionToSharding)
    requires |all| == |verdicts| && sharding.Valid()
    reads testCase`shouldRun
  {
    end <= |all| && testCase.shouldRun == AnySelected(all, verdicts, start, end, sharding)
  }

  lemma {:induction false} NoShardYet(all: seq<TestInfo>, verdicts: seq<Verdict>, sharding: ReactionToSharding)
    requires |all| == |verdicts| && sharding.Valid()
    ensures ShardOf(all, verdicts, 0, sharding) == []
  {
  }

  /** Without duplicates, the tests at the selected positions are those the shard runs. */
  lemma {:induction false} SelectedIsOnShard(all: seq<TestInfo>, verdicts: seq<Verdict>, n: nat,
                                             sharding: ReactionToSharding, p: nat)
    requires n <= |all| == |verdicts| && p < |all| && sharding.Valid() && NoDuplicates(all)
    ensures all[p] in ShardOf(all, verdicts, n, sharding) <==> p < n && SelectedAt(all, verdicts, p, sharding)
    decreases n
  {
    hide ShardOf, SelectedAt;
    if n == 0 {
      NoShardYet(all, verdicts, sharding);
    } else {
      SelectedIsOnShard(all, verdicts, n - 1, sharding, p);
      ShardStep(all, verdicts, n - 1, sharding);
      assert p == n - 1 || all[p] != all[n - 1];
    }
  }

  lemma {:induction false} KeptIsShard(all: seq<TestInfo>, verdicts: seq<Verdict>, p: nat, sharding: ReactionToSharding)
    requires p <= |all| == |verdicts| && sharding.Valid() && NoDuplicates(all)
    ensures Kept(all[..p], ShardOf(all, verdicts, |all|, sharding)) == ShardOf(all, verdicts, p, sharding)
  {
    if p == 0 {
      assert all[..0] == [];
    } else {
      KeptIsShard(all, verdicts, p - 1, sharding);
      ShardStep(all, verdicts, p - 1, sharding);
      SelectedIsOnShard(all, verdicts, |all|, sharding, p - 1);
      assert all[..p][..p - 1] == all[..p - 1];
    }
  }

  /** The tests a program runs, given its registrations and its flags, in their order before any shuffle. */
  ghost function ShardTests(tests: seq<TestInfo>, options: Options, sharding: ReactionToSharding): seq<TestInfo>
    requires sharding.Valid()
  {
    var all := AllTests(tests);
    ShardOf(all, VerdictsOf(all, options), |all|, sharding)
  }

  lemma {:induction false} ShardIsWithin(tests: seq<TestInfo>, options: Options, sharding: ReactionToSharding)
    requires NoDuplicates(tests) && sharding.Valid()
    ensures Within(ShardTests(tests, options, sharding), tests)
    ensures Kept(AllTests(tests), ShardTests(tests, options, sharding)) == ShardTests(tests, options, sharding)
  {
    var all := AllTests(tests);
    var shard := ShardTests(tests, options, sharding);
    AllTestsAreThere(tests);
    KeptIsShard(all, VerdictsOf(all, options), |all|, sharding);
    assert all[..|all|] == all;
    KeptMeans(all, shard);
    forall k | 0 <= k < |shard|
      ensures shard[k] in tests
    {
      var i :| 0 <= i < |all| && all[i] == shard[k];
      assert all[i] in tests;
    }
  }

  // ----- All shards together -----

  /** The tests that run on some shard. */
  ghost function RunnableTests(tests: seq<TestInfo>, options: Options): seq<TestInfo> {
    var all := AllTests(tests);
    RunnableOf(all, VerdictsOf(all, options), |all|)
  }

  lemma {:induction false} RunnableMeans(all: seq<TestInfo>, verdicts: seq<Verdict>, n: nat, p: nat)
    requires n <= |all| == |verdicts| && p < |all| && NoDuplicates(all)
    ensures all[p] in RunnableOf(all, verdicts, n) <==> p < n && verdicts[p].isRunnable
    decreases n
  {
    if n > 0 {
      RunnableMeans(all, verdicts, n - 1, p);
      assert p == n - 1 || all[p] != all[n - 1];
    }
  }

  lemma {:induction false} RunnableDistinct(all: seq<TestInfo>, verdicts: seq<Verdict>, n: nat)
    requires n <= |all| == |verdicts| && NoDuplicates(all)
    ensures NoDuplicates(RunnableOf(all, verdicts, n))
    decreases n
  {
    if n > 0 {
      RunnableDistinct(all, verdicts, n - 1);
      RunnableMeans(all, verdicts, n - 1, n - 1);
      JoinDistinct(RunnableOf(all, verdicts, n - 1), if verdicts[n - 1].isRunnable then [all[n - 1]] else []);
    }
  }

  lemma {:induction false} RunnableIsRunnable(tests: seq<TestInfo>, options: Options, k: nat)
    requires NoDuplicates(tests) && k < |tests|
    ensures NoDuplicates(RunnableTests(tests, options))
    ensures tests[k] in RunnableTests(tests, options) <==> Wanted(tests[k], options)
  {
    var all := AllTests(tests);
    var verdicts := VerdictsOf(all, options);
    AllTestsAreThere(tests);
    assert tests[k] in all;
    var p :| 0 <= p < |all| && all[p] == tests[k];
    assert Decided(all, p, verdicts, options);
    RunnableMeans(all, verdicts, |all|, p);
    RunnableDistinct(all, verdicts, |all|);
    RunnableIsWanted(tests[k], options);
  }

  /**
   * A registered test is runnable exactly when the filter selects its full name and either disabled tests run as well,
   * or neither its own name nor that of its test case starts with "DISABLED_" or has "/DISABLED_" in it.
   */
  lemma {:induction false} RunnableIff(tests: seq<TestInfo>, options: Options, k: nat)
    requires NoDuplicates(tests) && k < |tests|
    ensures var c, t := tests[k].testCaseName, tests[k].name;
            tests[k] in RunnableTests(tests, options)
            <==> && Selects(options.filter, c + "." + t)
                 && (options.alsoRunDisabled
                     || !("DISABLED_" <= c || "DISABLED_" <= t || Contains(c, "/DISABLED_") || Contains(t, "/DISABLED_")))
  {
    RunnableIsRunnable(tests, options, k);
  }

  /** A runnable test is run by exactly one of the shards, and any other test by none. */
  lemma {:induction false} EachTestOnOneShard(tests: seq<TestInfo>, options: Options, total: nat, k: nat)
    returns (home: nat)
    requires NoDuplicates(tests) && k < |tests| && total > 0
    ensures home < total
    ensures forall s | 0 <= s < total ::
              tests[k] in ShardTests(tests, options, HonorSharding(total, s))
              <==> s == home && Wanted(tests[k], options)
  {
    var runnable := RunnableTests(tests, options);
    RunnableIsRunnable(tests, options, k);
    if tests[k] in runnable {
      var i :| 0 <= i < |runnable| && runnable[i] == tests[k];
      home := i % total;
      forall s | 0 <= s < total
        ensures tests[k] in ShardTests(tests, options, HonorSharding(total, s)) <==> s == home
      {
        EachOnOneShard(runnable, total, s, i);
      }
    } else {
      home := 0;
      forall s | 0 <= s < total
        ensures tests[k] !in ShardTests(tests, options, HonorSharding(total, s))
      {
        DealtFrom(runnable, total, s);
      }
    }
  }

  /** The numbers of tests on the shards sum to the number of runnable tests, and differ by at most one. */
  lemma {:induction false} CountsAreFair(tests: seq<TestInfo>, options: Options, total: nat, s: nat, u: nat)
    requires s < total && u < total
    ensures |ShardTests(tests, options, HonorSharding(total, s))|
         <= |ShardTests(tests, options, HonorSharding(total, u))| + 1
    ensures Shares(RunnableTests(tests, options), total)[s] == ShardTests(tests, options, HonorSharding(total, s))
    ensures TotalSize(Shares(RunnableTests(tests, options), total)) == |RunnableTests(tests, options)|
  {
    ShardsAreBalanced(RunnableTests(tests, options), total, s, u);
    ShardsPartition(RunnableTests(tests, options), total);
  }

  /** Without sharding, all runnable tests run. */
  lemma {:induction false} NoShardsRunAll(tests: seq<TestInfo>, options: Options)
    ensures ShardTests(tests, options, IgnoreSharding) == RunnableTests(tests, options)
  {
    OneShard(RunnableTests(tests, options));
  }

  // ----- What a shard runs, by names -----

  /** A shard runs nothing but wanted tests; without sharding it runs all of them. */
  lemma {:induction false} ShardIsWanted(tests: seq<TestInfo>, options: Options, sharding: ReactionToSharding)
    requires NoDuplicates(tests) && sharding.Valid()
    ensures OnlyWanted(ShardTests(tests, options, sharding), options)
    ensures sharding.IgnoreSharding? ==> AllWanted(tests, ShardTests(tests, options, sharding), options)
  {
    var shard, runnable := ShardTests(tests, options, sharding), RunnableTests(tests, options);
    ShardIsWithin(tests, options, sharding);
    DealtFrom(runnable, sharding.Total(), sharding.Index());
    forall i | 0 <= i < |shard|
      ensures Wanted(shard[i], options)
    {
      var k :| 0 <= k < |tests| && tests[k] == shard[i];
      RunnableIsRunnable(tests, options, k);
    }
    if sharding.IgnoreSharding? {
      NoShardsRunAll(tests, options);
      forall k | 0 <= k < |tests| && Wanted(tests[k], options)
        ensures tests[k] in shard
      {
        RunnableIsRunnable(tests, options, k);
      }
    }
  }
}
