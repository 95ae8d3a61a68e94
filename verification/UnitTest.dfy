/** The unit test: it registers, filters, shuffles and runs tests. */
module UnitTest {
  import opened Common
  import opened Vectors
  import opened Shuffle
  import opened TestFilter
  import opened TestNames
  import opened TestOrder
  import opened TestInfos
  import opened TestCases
  import opened Registration
  import opened ShardSelection
  import opened TestRuns
  import opened RunOrders
  import opened BlockShuffle
  import opened ShuffledRuns

  class UnitTestImpl {
    var testCases: seq<TestCase>
    const testCaseIndices: Vector<nat>
    var lastDeathTestCase: int
    const random: Random
    /** The names of the test cases in the order of their registration. */
    ghost var names: seq<string>
    /** The vectors a shuffle of the tests rearranges. */
    ghost var vectors: set<Vector<nat>>

    /** The lists hold what the registration of these tests, in this order, calls for. */
    ghost predicate Complete(tests: seq<TestInfo>)
      reads `testCases, `names, testCases`testInfoList
    {
      && names == FirstNames(tests)
      && NoDuplicates(tests)
      && forall c | c in testCases :: c.testInfoList == TestsOf(tests, c.name)
    }

    ghost predicate InOrder()
      reads `testCases, `lastDeathTestCase, `names
    {
      && Names(testCases) == Sorted(names)
      && lastDeathTestCase + 1 == |Deaths(names)|
    }

    ghost predicate Apart()
      reads `testCases, `vectors
    {
      && NoDuplicates(testCases)
      && testCaseIndices !in vectors
      && (forall c | c in testCases :: c.testIndices in vectors)
      && forall c, d | c in testCases && d in testCases && c != d :: c.name != d.name && c.testIndices != d.testIndices
    }

    ghost predicate Valid()
      reads `testCases, `lastDeathTestCase, `names, `vectors, testCaseIndices, testCases`testInfoList, vectors
    {
      && InOrder() && Apart()
      && (forall c | c in testCases :: c.Valid())
      && InBlocks(testCaseIndices.items, lastDeathTestCase + 1, |testCases|)
    }

    /** Every test case and every test is in its place from before the first shuffle. */
    ghost predicate Unshuffled()
      reads `testCases, `vectors, testCaseIndices, testCases`testInfoList, vectors
      requires Apart()
    {
      testCaseIndices.items == Range(0, |testCases|) && forall c | c in testCases :: c.Unshuffled()
    }

    /** Nothing is shuffled: so it is before the first iteration, and between iterations. */
    ghost predicate AtRest()
      reads `testCases, `lastDeathTestCase, `names, `vectors, testCaseIndices, testCases`testInfoList, vectors
    {
      Valid() && Unshuffled()
    }

    constructor (random: Random)
      ensures AtRest() && Complete([]) && testCases == [] && this.random == random
      ensures fresh(testCaseIndices) && vectors == {}
    {
      testCases, lastDeathTestCase, names, vectors, this.random := [], -1, [], {}, random;
      testCaseIndices := new Vector();
    }

    /** The search of `GetTestCase`. */
    method FindTestCase(testCaseName: string) returns (testCase: TestCase?)
      ensures testCase != null ==> testCase in testCases && testCase.name == testCaseName
      ensures testCase == null ==> forall c | c in testCases :: c.name != testCaseName
      ensures testCase != null <==> testCaseName in Names(testCases)
    {
      var i := 0;
      while i < |testCases|
        invariant 0 <= i <= |testCases|
        invariant forall k | 0 <= k < i :: testCases[k].name != testCaseName
      {
        if testCases[i].name == testCaseName {
          assert Names(testCases)[i] == testCaseName;
          return testCases[i];
        }
        i := i + 1;
      }
      return null;
    }

    /**
     * `GetTestCase`: finds the test case of that name, or registers a new one. A new death test case goes after the
     * last one so far, any other to the end. The caller sees to it that nothing is shuffled.
     */
    method GetTestCase(testCaseName: string) returns (testCase: TestCase)
      requires AtRest() && NulFree(testCaseName)
      modifies `testCases, `lastDeathTestCase, `names, `vectors, testCaseIndices
      ensures AtRest()
      ensures testCase in testCases && testCase.name == testCaseName
      ensures testCaseName in old(names) ==> testCases == old(testCases) && names == old(names)
      ensures testCaseName !in old(names) ==>
                && fresh(testCase) && testCase.testInfoList == []
                && names == old(names) + [testCaseName]
      ensures forall c :: c in testCases <==> c in old(testCases) || c == testCase
      ensures fresh(vectors - old(vectors))
    {
      SortedMeans(names);
      var found := FindTestCase(testCaseName);
      if found != null {
        return found;
      }
      testCase := new TestCase(testCaseName);
      Insert(testCase);
    }

    /** The end of `GetTestCase`: a new test case enters the lists. */
    method Insert(testCase: TestCase)
      requires AtRest()
      requires testCase.Valid() && testCase.Unshuffled() && testCase.testIndices != testCaseIndices
      requires testCase !in testCases && testCase.testIndices !in vectors
      requires forall c | c in testCases :: c.name != testCase.name
      modifies `testCases, `lastDeathTestCase, `names, `vectors, testCaseIndices
      ensures AtRest()
      ensures names == old(names) + [testCase.name] && vectors == old(vectors) + {testCase.testIndices}
      ensures forall c :: c in testCases <==> c in old(testCases) || c == testCase
    {
      Place(testCase);
      vectors := vectors + {testCase.testIndices};
      AddIndex();
    }

    method AddIndex()
      requires InOrder() && Apart()
      requires forall c | c in testCases :: c.Valid() && c.Unshuffled()
      requires 0 <= lastDeathTestCase + 1 <= |testCases| == |testCaseIndices.items| + 1
      requires testCaseIndices.items == Range(0, |testCaseIndices.items|)
      modifies testCaseIndices
      ensures AtRest()
    {
      IdentityGrows(lastDeathTestCase + 1, |testCaseIndices.items|);
      testCaseIndices.PushBack(|testCaseIndices.items|);
      forall c | c in testCases
        ensures c.Valid() && c.Unshuffled()
      {
        assert old(c.Valid()) && old(c.Unshuffled());
      }
    }

    method Place(testCase: TestCase)
      requires InOrder() && NoDuplicates(testCases) && testCase !in testCases && NulFree(testCase.name)
      modifies `testCases, `lastDeathTestCase, `names
      ensures InOrder() && NoDuplicates(testCases)
      ensures names == old(names) + [testCase.name]
      ensures 0 <= lastDeathTestCase + 1 <= |testCases| == |old(testCases)| + 1
      ensures forall c :: c in testCases <==> c in old(testCases) || c == testCase
    {
      ghost var was := testCases;
      var isDeathTestCase := MatchesFilter(testCase.name, DEATH_TEST_CASE_FILTER);
      var position := |testCases|;
      if isDeathTestCase {
        lastDeathTestCase := lastDeathTestCase + 1;
        position := lastDeathTestCase;
      }
      testCases := Inserted(testCases, position, testCase);
      SortedInsert(names, was, testCase, position, testCases);
      names := names + [testCase.name];
    }

    /** `UnitTestImpl::AddTestInfo`; `tests` are the tests registered before, in order. */
    method AddTestInfo(testInfo: TestInfo, ghost tests: seq<TestInfo>)
      requires AtRest() && Complete(tests) && testInfo !in tests
      requires NulFree(testInfo.testCaseName) && NulFree(testInfo.name)
      modifies `testCases, `lastDeathTestCase, `names, `vectors, testCaseIndices, testCases`testInfoList, vectors
      ensures AtRest() && Complete(tests + [testInfo])
      ensures (forall c | c in testCases && c !in old(testCases) :: fresh(c)) && fresh(vectors - old(vectors))
    {
      var testCase := FindOrAdd(testInfo, tests);
      TestIsNew(tests, testInfo);
      AddTo(testCase, testInfo);
      forall c | c in testCases
        ensures c.testInfoList == TestsOf(tests + [testInfo], c.name)
      {
        TestsOfGrow(tests, testInfo, c.name);
      }
    }

    method FindOrAdd(testInfo: TestInfo, ghost tests: seq<TestInfo>) returns (testCase: TestCase)
      requires AtRest() && Complete(tests) && NulFree(testInfo.testCaseName)
      modifies `testCases, `lastDeathTestCase, `names, `vectors, testCaseIndices
      ensures AtRest()
      ensures testCase in testCases && testCase.name == testInfo.testCaseName
      ensures (forall c | c in testCases && c !in old(testCases) :: fresh(c)) && fresh(vectors - old(vectors))
      ensures names == FirstNames(tests + [testInfo])
      ensures forall c | c in testCases :: c.testInfoList == TestsOf(tests, c.name)
    {
      FirstNamesGrow(tests, testInfo);
      testCase := GetTestCase(testInfo.testCaseName);
      if testInfo.testCaseName !in old(names) {
        NoTestsYet(tests, testInfo.testCaseName);
      }
    }

    method AddTo(testCase: TestCase, testInfo: TestInfo)
      requires AtRest() && testCase in testCases
      requires testInfo !in testCase.testInfoList && testInfo.testCaseName == testCase.name && NulFree(testInfo.name)
      modifies testCase`testInfoList, testCase.testIndices
      ensures AtRest()
      ensures testCase.testInfoList == old(testCase.testInfoList) + [testInfo]
      ensures forall c | c in testCases && c != testCase :: c.testInfoList == old(c.testInfoList)
    {
      testCase.AddTestInfo(testInfo);
      forall c | c in testCases
        ensures c.Valid() && c.Unshuffled()
      {
        if c != testCase {
          assert old(c.Valid()) && old(c.Unshuffled());
        }
      }
    }

    // ----- Shuffling -----

    /** The first half of `ShuffleTests`: death test cases are shuffled among themselves, and so are the others. */
    method ShuffleTestCases()
      requires Valid() && |testCases| <= MAX_RANGE
      modifies random, testCaseIndices
      ensures Valid() && Lists() == old(Lists())
      ensures testCaseIndices.items == ShuffledInBlocks(old(testCaseIndices.items), lastDeathTestCase + 1, old(random.state))
      ensures random.state == AfterBlocks(|testCases|, lastDeathTestCase + 1, old(random.state))
    {
      ShuffleBlocks(random, testCaseIndices, lastDeathTestCase + 1);
      assert Lists() == old(Lists());
      forall c | c in testCases
        ensures c.Valid()
      {
        assert old(c.Valid());
      }
    }

    /** The orders of the tests within the test cases. */
    ghost function Lists(): (lists: seq<seq<nat>>)
      requires Apart()
      reads `testCases, `vectors, vectors
    {
      ListsOf(testCases, vectors)
    }

    method ShuffleOne(i: nat)
      requires Valid() && i < |testCases| && |testCases[i].testInfoList| <= MAX_RANGE
      modifies random, testCases[i].testIndices
      ensures Valid()
      ensures Deck(Lists(), random.state) == ShuffleList(old(Deck(Lists(), random.state)), i)
    {
      var testCase := testCases[i];
      assert testCase.Valid();
      IndicesAreInRange(testCase.testIndices.items, |testCase.testInfoList|);
      testCase.ShuffleTests(random);
      assert forall k | 0 <= k < |testCases| && k != i :: testCases[k] != testCase;
      forall c | c in testCases
        ensures c.Valid()
      {
        if c != testCase {
          assert old(c.Valid());
        }
      }
    }

    /** The orders and the generator are those of a deck. */
    ghost predicate IsAt(deck: Deck<nat>)
      reads random, `testCases, `lastDeathTestCase, `names, `vectors, testCaseIndices, testCases`testInfoList, vectors
    {
      Valid() && Deck(Lists(), random.state) == deck
    }

    method ShuffleNext(i: nat, ghost deck: Deck<nat>)
      requires i < |testCases| == |deck.lists| && IsAt(ShuffleLists(deck, i))
      requires |testCases[i].testInfoList| <= MAX_RANGE
      modifies random, vectors
      ensures IsAt(ShuffleLists(deck, i + 1))
    {
      ShuffleOne(i);
    }

    /** The second half of `ShuffleTests`. */
    method ShuffleWithin(ghost deck: Deck<nat>)
      requires IsAt(deck) && |deck.lists| == |testCases|
      requires forall c | c in testCases :: |c.testInfoList| <= MAX_RANGE
      modifies random, vectors
      ensures IsAt(ShuffleLists(deck, |testCases|))
    {
      hide *;
      ShuffleNoLists(deck);
      var i := 0;
      while i < |testCases|
        invariant 0 <= i <= |testCases| && IsAt(ShuffleLists(deck, i))
      {
        assert testCases[i] in testCases;
        ShuffleNext(i, deck);
        i := i + 1;
      }
    }

    /** `ShuffleTests` */
    method ShuffleTests()
      requires Valid() && |testCases| <= MAX_RANGE && forall c | c in testCases :: |c.testInfoList| <= MAX_RANGE
      modifies random, testCaseIndices, vectors
      ensures Valid()
      ensures testCaseIndices.items == ShuffledInBlocks(old(testCaseIndices.items), lastDeathTestCase + 1, old(random.state))
      ensures Deck(Lists(), random.state)
           == ShuffleLists(Deck(old(Lists()), AfterBlocks(|testCases|, lastDeathTestCase + 1, old(random.state))), |testCases|)
    {
      ShuffleTestCases();
      ShuffleWithin(Deck(Lists(), random.state));
    }

    /** The loop of `UnshuffleTests` has come to test case `i`. */
    ghost predicate Restored(i: nat)
      requires Apart()
      reads `testCases, `vectors, testCaseIndices, testCases`testInfoList, vectors
    {
      && i <= |testCases| == |testCaseIndices.items|
      && testCaseIndices.items[..i] == Range(0, i)
      && (forall c | c in testCases :: c.Valid())
      && forall k | 0 <= k < i :: testCases[k].Unshuffled()
    }

    lemma {:induction false} AllRestored()
      requires InOrder() && Apart() && Restored(|testCases|)
      ensures AtRest()
    {
      assert testCaseIndices.items[..|testCases|] == testCaseIndices.items;
      assert Names(testCases) == Sorted(names);
      IdentityIsInBlocks(lastDeathTestCase + 1, |testCases|);
    }

    /** `UnshuffleTests` */
    method UnshuffleTests()
      requires Valid()
      modifies testCaseIndices, vectors
      ensures AtRest()
    {
      var i := 0;
      while i < |testCases|
        invariant 0 <= i <= |testCases| && Restored(i)
      {
        UnshuffleOne(i);
        i := i + 1;
      }
      AllRestored();
    }

    method UnshuffleOne(i: nat)
      requires Apart() && i < |testCases| && Restored(i)
      modifies testCaseIndices, testCases[i].testIndices
      ensures Restored(i + 1)
    {
      testCases[i].UnshuffleTests();
      RangeGrows(testCaseIndices.items, i);
      testCaseIndices.items := testCaseIndices.items[i := i];
      forall c | c in testCases
        ensures c.Valid()
      {
        if c != testCases[i] {
          assert old(c.Valid());
        }
      }
      forall k | 0 <= k <= i
        ensures testCases[k].Unshuffled()
      {
        if k < i {
          assert testCases[k] != testCases[i] && old(testCases[k].Unshuffled());
        }
      }
    }

    // ----- Filtering -----

    /** The body of the inner loop of `FilterTests`, for the test at position `p` of all tests. */
    method FilterTest(testCase: TestCase, testInfo: TestInfo, options: Options, sharding: ReactionToSharding,
                      numRunnable: nat, ghost all: seq<TestInfo>, ghost verdicts: seq<Verdict>, ghost p: nat)
      returns (isRunnable: bool, isSelected: bool)
      requires sharding.Valid() && NulFree(options.filter)
      requires NulFree(testCase.name) && NulFree(testInfo.name) && testInfo.testCaseName == testCase.name
      requires p < |all| == |verdicts| && all[p] == testInfo && Decided(all, p, verdicts, options)
      requires numRunnable == |RunnableOf(all, verdicts, p)|
      modifies testCase`shouldRun, testInfo
      ensures isRunnable == verdicts[p].isRunnable && (isRunnable <==> Wanted(testInfo, options))
      ensures isSelected == SelectedAt(all, verdicts, p, sharding)
      ensures Marked(all, verdicts, p, sharding)
      ensures testCase.shouldRun == (old(testCase.shouldRun) || isSelected)
    {
      RunnableIsWanted(testInfo, options);
      var isDisabled := MatchesDisableFilter(testCase.name, testInfo.name);
      testInfo.isDisabled := isDisabled;
      var matchesFilter := FilterMatchesTest(testCase.name, testInfo.name, options.filter);
      testInfo.matchesFilter := matchesFilter;
      isRunnable := (options.alsoRunDisabled || !isDisabled) && matchesFilter;
      isSelected := isRunnable && sharding.Takes(numRunnable);
      testInfo.shouldRun := isSelected;
      testCase.shouldRun := testCase.shouldRun || isSelected;
    }

    /** One round of the inner loop of `FilterTests`; the test case's own tests stand from `start` on. */
    method FilterNext(testCase: TestCase, testInfo: TestInfo, options: Options, sharding: ReactionToSharding,
                      numRunnable0: nat, numSelected0: nat, ghost all: seq<TestInfo>, ghost verdicts: seq<Verdict>,
                      ghost start: nat, ghost p: nat)
      returns (numRunnable: nat, numSelected: nat)
      requires sharding.Valid() && NulFree(options.filter)
      requires NulFree(testCase.name) && NulFree(testInfo.name) && testInfo.testCaseName == testCase.name
      requires start <= p < |all| == |verdicts| && all[p] == testInfo && NoDuplicates(all)
      requires Decided(all, p, verdicts, options)
      requires testCase.shouldRun == AnySelected(all, verdicts, start, p, sharding)
      requires forall q | 0 <= q < p :: Marked(all, verdicts, q, sharding)
      requires Counters(numRunnable0, numSelected0) == CountersAt(all, verdicts, p, sharding)
      modifies testCase`shouldRun, testInfo
      ensures Counters(numRunnable, numSelected) == CountersAt(all, verdicts, p + 1, sharding)
      ensures forall q | 0 <= q < p + 1 :: Marked(all, verdicts, q, sharding)
      ensures testCase.shouldRun == AnySelected(all, verdicts, start, p + 1, sharding)
    {
      var isRunnable, isSelected := FilterTest(testCase, testInfo, options, sharding, numRunnable0, all, verdicts, p);
      forall q | 0 <= q < p + 1
        ensures Marked(all, verdicts, q, sharding)
      {
        if q < p {
          assert old(Marked(all, verdicts, q, sharding));
        }
      }
      numRunnable := numRunnable0 + if isRunnable then 1 else 0;
      numSelected := numSelected0 + if isSelected then 1 else 0;
      CountedStep(Counters(numRunnable0, numSelected0), all, verdicts, p, sharding, isRunnable, isSelected,
                  Counters(numRunnable, numSelected));
    }

    /**
     * One round of the outer loop of `FilterTests`. The tests of the test case stand from position `start` up to
     * `next` of all tests; those before it have been marked and counted.
     */
    method FilterCase(testCase: TestCase, options: Options, sharding: ReactionToSharding, numRunnable0: nat,
                      numSelected0: nat, ghost all: seq<TestInfo>, ghost verdicts: seq<Verdict>, ghost start: nat,
                      ghost next: nat)
      returns (numRunnable: nat, numSelected: nat, ghost end: nat)
      requires sharding.Valid() && NulFree(options.filter) && testCase.Valid()
      requires NoDuplicates(all) && testCase.StandsAt(all, start, next)
      requires |all| == |verdicts| && forall p | 0 <= p < |all| :: Decided(all, p, verdicts, options)
      requires Counters(numRunnable0, numSelected0) == CountersAt(all, verdicts, start, sharding)
      requires forall p | 0 <= p < start :: Marked(all, verdicts, p, sharding)
      modifies testCase`shouldRun, testCase.testInfoList
      ensures end == next
      ensures Counters(numRunnable, numSelected) == CountersAt(all, verdicts, end, sharding)
      ensures forall p | 0 <= p < end :: Marked(all, verdicts, p, sharding)
      ensures CaseMarked(testCase, start, end, all, verdicts, sharding)
    {
      numRunnable, numSelected, end := numRunnable0, numSelected0, start;
      testCase.shouldRun := false;
      var j := 0;
      while j < |testCase.testInfoList|
        invariant 0 <= j <= |testCase.testInfoList| && end == start + j <= |all|
        invariant Counters(numRunnable, numSelected) == CountersAt(all, verdicts, end, sharding)
        invariant forall p | 0 <= p < end :: Marked(all, verdicts, p, sharding)
        invariant testCase.shouldRun == AnySelected(all, verdicts, start, end, sharding)
      {
        var testInfo := testCase.testInfoList[j];
        assert testInfo == all[start..next][j] == all[end];
        numRunnable, numSelected :=
          FilterNext(testCase, testInfo, options, sharding, numRunnable, numSelected, all, verdicts, start, end);
        j, end := j + 1, end + 1;
      }
    }

    /** The tests of the i-th test case stand from position `starts[i]` on among all tests. */
    ghost predicate Stand(all: seq<TestInfo>, starts: seq<nat>)
      reads `testCases, testCases`testInfoList
    {
      && NoDuplicates(all)
      && |starts| == |testCases| + 1 && starts[0] == 0 && starts[|testCases|] == |all|
      && forall i | 0 <= i < |testCases| :: testCases[i].StandsAt(all, starts[i], starts[i + 1])
    }

    lemma {:induction false} AllStand(tests: seq<TestInfo>)
      requires InOrder() && Complete(tests)
      ensures Stand(AllTests(tests), Starts(tests, Names(testCases)))
    {
      AllTestsAreThere(tests);
      var x := Names(testCases);
      forall i | 0 <= i < |testCases|
        ensures testCases[i].StandsAt(AllTests(tests), Starts(tests, x)[i], Starts(tests, x)[i + 1])
      {
        assert testCases[i].testInfoList == TestsOf(tests, x[i]);
        GroupStands(tests, x, i);
      }
    }

    /** One round of the outer loop of `FilterTests`, for the i-th test case. */
    method FilterAt(testCase: TestCase, ghost i: nat, options: Options, sharding: ReactionToSharding, numRunnable0: nat,
                    numSelected0: nat, ghost all: seq<TestInfo>, ghost verdicts: seq<Verdict>, ghost starts: seq<nat>)
      returns (numRunnable: nat, numSelected: nat)
      requires Valid() && Stand(all, starts) && sharding.Valid() && NulFree(options.filter)
      requires |all| == |verdicts| && forall p | 0 <= p < |all| :: Decided(all, p, verdicts, options)
      requires i < |testCases| && testCase == testCases[i] && starts[i] <= |all|
      requires Counters(numRunnable0, numSelected0) == CountersAt(all, verdicts, starts[i], sharding)
      requires forall p | 0 <= p < starts[i] :: Marked(all, verdicts, p, sharding)
      requires forall k | 0 <= k < i :: CaseMarked(testCases[k], starts[k], starts[k + 1], all, verdicts, sharding)
      modifies testCase`shouldRun, all
      ensures starts[i + 1] <= |all|
      ensures Counters(numRunnable, numSelected) == CountersAt(all, verdicts, starts[i + 1], sharding)
      ensures forall p | 0 <= p < starts[i + 1] :: Marked(all, verdicts, p, sharding)
      ensures forall k | 0 <= k <= i :: CaseMarked(testCases[k], starts[k], starts[k + 1], all, verdicts, sharding)
    {
      assert testCase.Valid() && testCase.StandsAt(all, starts[i], starts[i + 1]);
      ghost var end;
      numRunnable, numSelected, end :=
        FilterCase(testCase, options, sharding, numRunnable0, numSelected0, all, verdicts, starts[i], starts[i + 1]);
      assert forall k | 0 <= k < i :: testCases[k] != testCase;
    }

    lemma {:induction false} StandMeans(all: seq<TestInfo>, starts: seq<nat>, verdicts: seq<Verdict>,
                                        sharding: ReactionToSharding)
      requires Stand(all, starts) && |all| == |verdicts| && sharding.Valid()
      ensures |starts| == |testCases| + 1 && starts[0] == 0 && starts[|testCases|] == |all|
      ensures CountersAt(all, verdicts, 0, sharding) == Counters(0, 0)
      ensures CountersAt(all, verdicts, |all|, sharding).selected == |ShardOf(all, verdicts, |all|, sharding)|
    {
    }

    /**
     * `FilterTests`: marks what this shard runs, and returns how much that is. `all` are the tests of the test cases
     * one after the other.
     */
    method FilterTests(options: Options, sharding: ReactionToSharding, ghost all: seq<TestInfo>,
                       ghost verdicts: seq<Verdict>, ghost starts: seq<nat>)
      returns (numSelected: nat)
      requires Valid() && Stand(all, starts) && sharding.Valid() && NulFree(options.filter)
      requires |all| == |verdicts| && forall p | 0 <= p < |all| :: Decided(all, p, verdicts, options)
      modifies testCases`shouldRun, all
      ensures numSelected == |ShardOf(all, verdicts, |all|, sharding)|
      ensures forall p | 0 <= p < |all| :: Marked(all, verdicts, p, sharding)
      ensures forall i | 0 <= i < |testCases| :: CaseMarked(testCases[i], starts[i], starts[i + 1], all, verdicts, sharding)
    {
      hide *;
      StandMeans(all, starts, verdicts, sharding);
      var numRunnable: nat, i := 0, 0;
      numSelected := 0;
      while i < |testCases|
        invariant 0 <= i <= |testCases| && starts[i] <= |all|
        invariant Counters(numRunnable, numSelected) == CountersAt(all, verdicts, starts[i], sharding)
        invariant forall p | 0 <= p < starts[i] :: Marked(all, verdicts, p, sharding)
        invariant forall k | 0 <= k < i :: CaseMarked(testCases[k], starts[k], starts[k + 1], all, verdicts, sharding)
      {
        numRunnable, numSelected :=
          FilterAt(testCases[i], i, options, sharding, numRunnable, numSelected, all, verdicts, starts);
        i := i + 1;
      }
    }

    lemma {:induction false} CaseIsReady(testCase: TestCase, all: seq<TestInfo>, verdicts: seq<Verdict>, start: nat,
                                         end: nat, sharding: ReactionToSharding)
      requires |all| == |verdicts| && sharding.Valid() && NoDuplicates(all) && testCase.StandsAt(all, start, end)
      requires forall p | 0 <= p < |all| :: Marked(all, verdicts, p, sharding)
      requires CaseMarked(testCase, start, end, all, verdicts, sharding)
      ensures testCase.Ready(ShardOf(all, verdicts, |all|, sharding))
    {
      var shard, list := ShardOf(all, verdicts, |all|, sharding), testCase.testInfoList;
      forall k | 0 <= k < |list|
        ensures list[k].shouldRun == (list[k] in shard)
        ensures list[k] in shard ==> testCase.shouldRun
      {
        SelectedIsOnShard(all, verdicts, |all|, sharding, start + k);
        assert list[k] == all[start..end][k] == all[start + k];
        assert Marked(all, verdicts, start + k, sharding);
        if list[k] in shard {
          SelectedIsAny(all, verdicts, start, start + k, end, sharding);
        }
      }
      KeptMeans(list, shard);
      if testCase.shouldRun {
        var p := AnyIsSelected(all, verdicts, start, end, sharding);
        SelectedIsOnShard(all, verdicts, |all|, sharding, p);
        assert list[p - start] == all[start..end][p - start] == all[p];
        assert list[p - start] in Kept(list, shard);
      } else {
        NothingKept(list, shard);
      }
    }

    // ----- Running -----

    /** The test cases in their present order. */
    ghost function CaseOrder(): (order: seq<TestCase>)
      requires Valid()
      reads `testCases, `lastDeathTestCase, `names, `vectors, testCaseIndices, testCases`testInfoList, vectors
      ensures |order| == |testCases|
      ensures forall k | 0 <= k < |order| :: order[k] in testCases
    {
      BlocksPermute(testCaseIndices.items, lastDeathTestCase + 1, |testCases|);
      PickPermutes(testCases, testCaseIndices.items);
      Pick(testCases, testCaseIndices.items)
    }

    /** `GetMutableTestCase` */
    function GetMutableTestCase(i: int): (c: TestCase?)
      requires AllBelow(testCaseIndices.items, |testCases|)
      reads `testCases, testCaseIndices
      ensures 0 <= i < |testCaseIndices.items| ==> c == Pick(testCases, testCaseIndices.items)[i]
      ensures !(0 <= i < |testCaseIndices.items|) ==> c == null
    {
      if 0 <= i < |testCaseIndices.items| then testCases[testCaseIndices.items[i]] else null
    }

    /** Whatever the shuffle, every test case is in the order once, and death test cases come first. */
    lemma {:induction false} OrderIsRight()
      requires Valid()
      ensures NoDuplicates(Names(CaseOrder())) && Within(Names(testCases), Names(CaseOrder()))
      ensures DeathsFirst(Names(CaseOrder()))
    {
      NamesDistinct(testCases);
      BlocksPermute(testCaseIndices.items, lastDeathTestCase + 1, |testCases|);
      IndicesAreInRange(testCaseIndices.items, |testCases|);
      NamesPicked(testCases, testCaseIndices.items);
      PickSorted(names, testCaseIndices.items);
    }

    lemma {:induction false} RunsIsKept(testCase: TestCase, shard: seq<TestInfo>)
      requires testCase.Valid() && testCase.Ready(shard)
      ensures testCase.Runs() == Kept(testCase.Order(), shard)
    {
      var order, list := testCase.Order(), testCase.testInfoList;
      KeptMeans(list, shard);
      forall k | 0 <= k < |order|
        ensures order[k].shouldRun == (order[k] in shard)
        ensures order[k] in shard ==> testCase.shouldRun
      {
        var i :| 0 <= i < |list| && list[i] == order[k];
      }
      if testCase.shouldRun {
        ChosenIsKept(order, shard);
      } else {
        NothingKept(order, shard);
      }
    }

    /** The tests of the test cases, in their present orders. */
    ghost function TestOrders(): (lists: seq<seq<TestInfo>>)
      requires Valid()
      reads `testCases, `lastDeathTestCase, `names, `vectors, testCaseIndices, testCases`testInfoList, vectors
      ensures |lists| == |testCases|
    {
      OrdersOf(CaseOrder(), testCases, vectors)
    }

    method RunOne(testCase: TestCase, ghost part: seq<TestInfo>) returns (ran: seq<TestInfo>)
      requires testCase.Will(part)
      ensures ran == part
    {
      ran := testCase.Run();
    }

    /** The loop over the test cases in `RunAllTests`; `parts` are what the test cases in their present order run. */
    method RunTestCases(ghost order: seq<TestCase>, ghost parts: seq<seq<TestInfo>>) returns (ran: seq<TestInfo>)
      requires AllBelow(testCaseIndices.items, |testCases|) && |testCases| == |testCaseIndices.items|
      requires order == Pick(testCases, testCaseIndices.items) && |parts| == |order|
      requires forall i | 0 <= i < |order| :: order[i].Will(parts[i])
      ensures ran == Joined(parts, |parts|)
    {
      hide *;
      ran := [];
      JoinedNothing(parts);
      var i := 0;
      while i < |testCases|
        invariant 0 <= i <= |testCases| && ran == Joined(parts, i)
      {
        var testCase := GetMutableTestCase(i);
        assert testCase == order[i] && testCase.Will(parts[i]);
        var more := RunOne(testCase, parts[i]);
        JoinedStep(parts, i);
        ran := ran + more;
        i := i + 1;
      }
    }

    /** What the test cases run when all marks are for a shard. */
    lemma {:induction false} AllWill(shard: seq<TestInfo>)
      requires Valid() && forall c | c in testCases :: c.Ready(shard)
      ensures forall i | 0 <= i < |CaseOrder()| :: CaseOrder()[i].Will(Parts(TestOrders(), shard)[i])
    {
      forall i | 0 <= i < |CaseOrder()|
        ensures CaseOrder()[i].Will(Parts(TestOrders(), shard)[i])
      {
        RunsIsKept(CaseOrder()[i], shard);
        PartsAre(TestOrders(), shard, i);
      }
    }

    lemma {:induction false} CaseOrderIsRight(c: TestCase)
      requires c.Valid()
      ensures NoDuplicates(c.Order()) && AllNamed(c.Order(), c.name) && Within(c.testInfoList, c.Order())
    {
      PickPermutes(c.testInfoList, c.testIndices.items);
      SameElements(c.Order(), c.testInfoList);
    }

    lemma {:induction false} TestOrdersAreLists()
      requires Valid()
      ensures ListsOfCases(TestOrders(), Names(CaseOrder()))
    {
      var lists, order := TestOrders(), CaseOrder();
      assert lists == OrdersOf(order, testCases, vectors);
      forall i | 0 <= i < |lists|
        ensures NoDuplicates(lists[i]) && AllNamed(lists[i], Names(order)[i])
      {
        assert order[i] in testCases && lists[i] == order[i].Order();
        CaseOrderIsRight(order[i]);
      }
    }

    /** A test of the shard stands somewhere in the lists. */
    lemma {:induction false} TestStands(tests: seq<TestInfo>, k: nat) returns (i: nat, m: nat)
      requires Valid() && Complete(tests) && k < |tests|
      ensures i < |TestOrders()| && m < |TestOrders()[i]| && TestOrders()[i][m] == tests[k]
    {
      var lists, order := TestOrders(), CaseOrder();
      assert lists == OrdersOf(order, testCases, vectors);
      FirstNamesMeans(tests);
      SortedMeans(names);
      assert tests[k].testCaseName in Names(testCases);
      OrderIsRight();
      var j :| 0 <= j < |testCases| && Names(testCases)[j] == tests[k].testCaseName;
      assert Names(testCases)[j] in Names(order);
      i :| 0 <= i < |order| && Names(order)[i] == tests[k].testCaseName;
      assert order[i] in testCases && lists[i] == order[i].Order();
      CaseOrderIsRight(order[i]);
      TestsOfMeans(tests, order[i].name);
      assert tests[k] in order[i].testInfoList;
      var q :| 0 <= q < |order[i].testInfoList| && order[i].testInfoList[q] == tests[k];
      assert order[i].testInfoList[q] in order[i].Order();
      m :| 0 <= m < |lists[i]| && lists[i][m] == tests[k];
    }

    /** Whatever the shuffle, a run executes every test of the shard once, nothing else, and death tests first. */
    lemma {:induction false} RunIsRight(tests: seq<TestInfo>, shard: seq<TestInfo>)
      requires Valid() && Complete(tests) && Within(shard, tests)
      ensures RunsOnce(Executed(TestOrders(), |testCases|, shard), shard)
    {
      var lists, x := TestOrders(), Names(CaseOrder());
      TestOrdersAreLists();
      OrderIsRight();
      ExecutedMeans(lists, x, |lists|, shard);
      ExecutedInOrder(lists, x, |lists|, shard, IsDeathTestCase);
      forall k | 0 <= k < |shard|
        ensures shard[k] in Executed(lists, |lists|, shard)
      {
        assert shard[k] in tests;
        var p :| 0 <= p < |tests| && tests[p] == shard[k];
        var i, m := TestStands(tests, p);
        ExecutedHas(lists, |lists|, shard, i, m);
      }
    }

    /** Without a shuffle, a run executes the tests of the shard in the order they have among all tests. */
    lemma {:induction false} RunInPlace(all: seq<TestInfo>, starts: seq<nat>, shard: seq<TestInfo>)
      requires AtRest() && Stand(all, starts)
      ensures Executed(TestOrders(), |testCases|, shard) == Kept(all, shard)
    {
      var lists, order := TestOrders(), CaseOrder();
      assert lists == OrdersOf(order, testCases, vectors);
      PickAll(testCases);
      forall k | 0 <= k < |lists|
        ensures Part(lists[k], all, starts[k], starts[k + 1])
      {
        assert order[k] == testCases[k] && lists[k] == order[k].Order();
        PickAll(testCases[k].testInfoList);
        assert testCases[k].StandsAt(all, starts[k], starts[k + 1]);
      }
      ExecutedUnshuffled(lists, all, starts, shard, |lists|);
      assert all[..|all|] == all;
    }

    /** What a run from the present state will execute. */
    lemma {:induction false} RunIsPlanned(tests: seq<TestInfo>, all: seq<TestInfo>, starts: seq<nat>, shard: seq<TestInfo>)
      returns (order: seq<TestCase>, parts: seq<seq<TestInfo>>)
      requires Valid() && Complete(tests) && Stand(all, starts) && Within(shard, tests)
      requires forall c | c in testCases :: c.Ready(shard)
      ensures |testCaseIndices.items| == |testCases| == |parts| && AllBelow(testCaseIndices.items, |testCases|)
      ensures order == Pick(testCases, testCaseIndices.items)
      ensures forall i | 0 <= i < |order| :: order[i].Will(parts[i])
      ensures Joined(parts, |parts|) == Executed(TestOrders(), |testCases|, shard)
      ensures RunsOnce(Joined(parts, |parts|), shard)
      ensures Unshuffled() ==> Joined(parts, |parts|) == Kept(all, shard)
    {
      BlocksPermute(testCaseIndices.items, lastDeathTestCase + 1, |testCases|);
      IndicesAreInRange(testCaseIndices.items, |testCases|);
      order, parts := CaseOrder(), Parts(TestOrders(), shard);
      AllWill(shard);
      ExecutedIsJoined(TestOrders(), |testCases|, shard);
      RunIsRight(tests, shard);
      if Unshuffled() {
        RunInPlace(all, starts, shard);
      }
    }

    lemma {:induction false} GroupsAre(tests: seq<TestInfo>)
      requires InOrder() && Complete(tests)
      ensures |Groups(tests)| == |testCases| && lastDeathTestCase + 1 == |Deaths(FirstNames(tests))|
      ensures forall i | 0 <= i < |testCases| :: testCases[i].testInfoList == Groups(tests)[i]
    {
      var x := Names(testCases);
      forall i | 0 <= i < |testCases|
        ensures testCases[i].testInfoList == Groups(tests)[i]
      {
        assert testCases[i].testInfoList == TestsOf(tests, x[i]);
      }
    }

    method RunNow(ghost tests: seq<TestInfo>, ghost all: seq<TestInfo>, ghost starts: seq<nat>, ghost shard: seq<TestInfo>,
                  ghost lists: seq<seq<TestInfo>>)
      returns (ran: seq<TestInfo>)
      requires Valid() && Complete(tests) && Stand(all, starts) && Within(shard, tests) && lists == TestOrders()
      requires forall c | c in testCases :: c.Ready(shard)
      ensures Valid() && RunsOnce(ran, shard)
      ensures |lists| == |Groups(tests)| && ran == Executed(lists, |lists|, shard)
      ensures old(Unshuffled()) ==> ran == Kept(all, shard)
    {
      GroupsAre(tests);
      ghost var order, parts := RunIsPlanned(tests, all, starts, shard);
      ran := RunTestCases(order, parts);
    }

    lemma {:induction false} ListsInPlace(tests: seq<TestInfo>)
      requires InOrder() && Apart() && Complete(tests) && Unshuffled()
      ensures Lists() == InPlace(Groups(tests))
    {
      GroupsAre(tests);
      assert Lists() == ListsOf(testCases, vectors);
      forall i | 0 <= i < |testCases|
        ensures Lists()[i] == InPlace(Groups(tests))[i]
      {
        assert testCases[i].Unshuffled();
      }
    }

    /** The orders of the tests, in the order of the test cases before any shuffle. */
    lemma {:induction false} CaseOrdersAre(tests: seq<TestInfo>, lists: seq<seq<TestInfo>>)
      requires Valid() && Complete(tests) && AllPicked(Groups(tests), Lists(), lists)
      ensures |lists| == |testCases| == |testCaseIndices.items| && AllBelow(testCaseIndices.items, |lists|)
      ensures TestOrders() == Pick(lists, testCaseIndices.items)
    {
      GroupsAre(tests);
      BlocksPermute(testCaseIndices.items, lastDeathTestCase + 1, |testCases|);
      IndicesAreInRange(testCaseIndices.items, |testCases|);
      assert TestOrders() == OrdersOf(CaseOrder(), testCases, vectors) && Lists() == ListsOf(testCases, vectors);
      forall k | 0 <= k < |testCases|
        ensures TestOrders()[k] == lists[testCaseIndices.items[k]]
      {
        var i := testCaseIndices.items[k];
        assert CaseOrder()[k] == testCases[i] && testCases[i].testInfoList == Groups(tests)[i];
        assert PickedAt(Groups(tests), Lists(), lists, i);
      }
    }

    /** After a shuffle, the orders are those that the seed leads to. */
    lemma {:induction false} OrdersAreFrom(tests: seq<TestInfo>, seed: Seed)
      requires Valid() && Complete(tests) && |testCases| == |Groups(tests)|
      requires testCaseIndices.items == ShuffledInBlocks(Range(0, |testCases|), lastDeathTestCase + 1, seed)
      requires Lists() == ShuffleLists(Deck(InPlace(Groups(tests)), AfterBlocks(|testCases|, lastDeathTestCase + 1, seed)),
                                       |testCases|).lists
      ensures TestOrders() == OrderFrom(tests, seed)
    {
      var groups, d := Groups(tests), lastDeathTestCase + 1;
      var state := AfterBlocks(|groups|, d, seed);
      var lists := ShuffleLists(Deck(groups, state), |groups|).lists;
      GroupsAre(tests);
      ShuffledListsPick(groups, state, |groups|);
      CaseOrdersAre(tests, lists);
      PickBlocks(lists, Range(0, |lists|), d, seed);
      PickAll(lists);
    }

    /** The start of an iteration with a shuffle. */
    method ShuffleFrom(seed: UInt32)
      requires Valid() && |testCases| <= MAX_RANGE && forall c | c in testCases :: |c.testInfoList| <= MAX_RANGE
      modifies random, testCaseIndices, vectors
      ensures Valid()
      ensures testCaseIndices.items == ShuffledInBlocks(old(testCaseIndices.items), lastDeathTestCase + 1, seed)
      ensures Lists()
           == ShuffleLists(Deck(old(Lists()), AfterBlocks(|testCases|, lastDeathTestCase + 1, seed)), |testCases|).lists
    {
      hide *;
      random.Reseed(seed);
      ShuffleTests();
    }

    method Rearrange(seed: Seed, ghost tests: seq<TestInfo>)
      requires Valid() && Complete(tests)
      requires testCaseIndices.items == Range(0, |testCases|) && Lists() == InPlace(Groups(tests))
      requires |testCases| <= MAX_RANGE && forall c | c in testCases :: |c.testInfoList| <= MAX_RANGE
      modifies random, testCaseIndices, vectors
      ensures Valid() && TestOrders() == OrderFrom(tests, seed)
    {
      assert |testCases| == |Groups(tests)|;
      hide *;
      ShuffleFrom(seed);
      OrdersAreFrom(tests, seed);
    }

    method RunShuffled(seed: Seed, ghost tests: seq<TestInfo>, ghost all: seq<TestInfo>, ghost starts: seq<nat>,
                       ghost shard: seq<TestInfo>)
      returns (ran: seq<TestInfo>)
      requires Valid() && Complete(tests) && Stand(all, starts) && Within(shard, tests)
      requires testCaseIndices.items == Range(0, |testCases|) && Lists() == InPlace(Groups(tests))
      requires forall c | c in testCases :: c.Ready(shard)
      requires |testCases| <= MAX_RANGE && forall c | c in testCases :: |c.testInfoList| <= MAX_RANGE
      modifies random, testCaseIndices, vectors
      ensures Valid()
      ensures RunsOnce(ran, shard) && ran == Executed(OrderFrom(tests, seed), |OrderFrom(tests, seed)|, shard)
    {
      hide *;
      Rearrange(seed, tests);
      assert Complete(tests);
      assert Stand(all, starts);
      forall c | c in testCases
        ensures c.Ready(shard)
      {
        assert old(c.Ready(shard));
      }
      ran := RunNow(tests, all, starts, shard, OrderFrom(tests, seed));
    }

    /** The part of an iteration in which the tests are in the order of the iteration. */
    method ArrangeAndRun(shuffle: bool, seed: Seed, ghost tests: seq<TestInfo>, ghost all: seq<TestInfo>,
                         ghost starts: seq<nat>, ghost shard: seq<TestInfo>)
      returns (ran: seq<TestInfo>)
      requires AtRest() && Complete(tests) && Stand(all, starts) && Within(shard, tests)
      requires Kept(all, shard) == shard && forall c | c in testCases :: c.Ready(shard)
      requires |testCases| <= MAX_RANGE && forall c | c in testCases :: |c.testInfoList| <= MAX_RANGE
      modifies random, testCaseIndices, vectors
      ensures Valid()
      ensures RunsOnce(ran, shard) && ran == Iteration(tests, shuffle, seed, shard)
    {
      if shuffle {
        ListsInPlace(tests);
        ran := RunShuffled(seed, tests, all, starts, shard);
      } else {
        ran := RunNow(tests, all, starts, shard, TestOrders());
      }
    }

    /** One iteration of the loop of `RunAllTests`, when there are tests to run. */
    method RunIteration(shuffle: bool, seed: Seed, ghost tests: seq<TestInfo>, ghost all: seq<TestInfo>,
                        ghost starts: seq<nat>, ghost shard: seq<TestInfo>)
      returns (ran: seq<TestInfo>)
      requires AtRest() && Complete(tests) && Stand(all, starts) && Within(shard, tests)
      requires Kept(all, shard) == shard && forall c | c in testCases :: c.Ready(shard)
      requires |testCases| <= MAX_RANGE && forall c | c in testCases :: |c.testInfoList| <= MAX_RANGE
      modifies random, testCaseIndices, vectors
      ensures AtRest()
      ensures RunsOnce(ran, shard) && ran == Iteration(tests, shuffle, seed, shard)
    {
      ran := ArrangeAndRun(shuffle, seed, tests, all, starts, shard);
      UnshuffleTests();
    }

    /** The filter and the marks, at the start of `RunAllTests`. */
    method Prepare(options: Options, sharding: ReactionToSharding, ghost tests: seq<TestInfo>, ghost all: seq<TestInfo>,
                   ghost verdicts: seq<Verdict>, ghost starts: seq<nat>)
      returns (hasTestsToRun: bool)
      requires AtRest() && Complete(tests) && Stand(all, starts)
      requires sharding.Valid() && NulFree(options.filter)
      requires |all| == |verdicts| && forall p | 0 <= p < |all| :: Decided(all, p, verdicts, options)
      modifies testCases`shouldRun, all
      ensures AtRest() && Complete(tests) && Stand(all, starts)
      ensures hasTestsToRun <==> ShardOf(all, verdicts, |all|, sharding) != []
      ensures forall c | c in testCases :: c.Ready(ShardOf(all, verdicts, |all|, sharding))
    {
      var numSelected := FilterTests(options, sharding, all, verdicts, starts);
      forall i | 0 <= i < |testCases|
        ensures testCases[i].Ready(ShardOf(all, verdicts, |all|, sharding))
      {
        assert testCases[i].StandsAt(all, starts[i], starts[i + 1]);
        CaseIsReady(testCases[i], all, verdicts, starts[i], starts[i + 1], sharding);
      }
      hasTestsToRun := numSelected > 0;
    }

    /** The loop of `RunAllTests`: a shuffle lasts for one iteration, and each iteration has a seed of its own. */
    method Repeat(hasTestsToRun: bool, shuffle: bool, randomSeed: Seed, repeat: nat, ghost tests: seq<TestInfo>,
                  ghost all: seq<TestInfo>, ghost starts: seq<nat>, ghost shard: seq<TestInfo>)
      returns (log: seq<seq<TestInfo>>)
      requires AtRest() && Complete(tests) && Stand(all, starts) && Within(shard, tests)
      requires forall c | c in testCases :: c.Ready(shard)
      requires (hasTestsToRun <==> shard != []) && Kept(all, shard) == shard
      requires |testCases| <= MAX_RANGE && forall c | c in testCases :: |c.testInfoList| <= MAX_RANGE
      modifies random, testCaseIndices, vectors
      ensures AtRest()
      ensures |log| == repeat && AllRunOnce(log, tests, shuffle, randomSeed, shard)
    {
      hide *;
      var seed := randomSeed;
      log := [];
      SeedsStart(randomSeed);
      NoRunYet(tests, shuffle, randomSeed, shard);
      while |log| < repeat
        invariant |log| <= repeat && (shuffle ==> seed == SeedAt(randomSeed, |log|))
        invariant AtRest()
        invariant AllRunOnce(log, tests, shuffle, randomSeed, shard)
      {
        var ran := [];
        if hasTestsToRun {
          ran := RunIteration(shuffle, seed, tests, all, starts, shard);
        } else {
          NothingToRun(tests, shuffle, seed);
        }
        IterationDoesNotShuffle(tests, seed, SeedAt(randomSeed, |log|), shard);
        AllRunOnceGrows(log, ran, tests, shuffle, randomSeed, shard);
        SeedsStep(randomSeed, |log|);
        log := log + [ran];
        if shuffle {
          seed := NextRandomSeed(seed);
        }
      }
    }

    /** `RunAllTests`, given where the tests stand and what the flags say about them. */
    method MarkAndRepeat(options: Options, sharding: ReactionToSharding, shuffle: bool, randomSeed: Seed, repeat: nat,
                         ghost tests: seq<TestInfo>, ghost all: seq<TestInfo>, ghost verdicts: seq<Verdict>,
                         ghost starts: seq<nat>, ghost shard: seq<TestInfo>)
      returns (log: seq<seq<TestInfo>>)
      requires AtRest() && Complete(tests) && Stand(all, starts)
      requires sharding.Valid() && NulFree(options.filter)
      requires |all| == |verdicts| && forall p | 0 <= p < |all| :: Decided(all, p, verdicts, options)
      requires shard == ShardOf(all, verdicts, |all|, sharding) && Within(shard, tests) && Kept(all, shard) == shard
      requires |testCases| <= MAX_RANGE && forall c | c in testCases :: |c.testInfoList| <= MAX_RANGE
      modifies random, testCaseIndices, vectors, testCases`shouldRun, all
      ensures AtRest()
      ensures |log| == repeat && AllRunOnce(log, tests, shuffle, randomSeed, shard)
    {
      var hasTestsToRun := Prepare(options, sharding, tests, all, verdicts, starts);
      log := Repeat(hasTestsToRun, shuffle, randomSeed, repeat, tests, all, starts, shard);
    }

    /**
     * `RunAllTests`: marks the tests of this shard, and then runs the test cases `repeat` times. `log` holds for each
     * iteration the tests it executed.
     */
    method RunAllTests(options: Options, sharding: ReactionToSharding, shuffle: bool, randomSeed: Seed, repeat: nat,
                       ghost tests: seq<TestInfo>)
      returns (log: seq<seq<TestInfo>>)
      requires AtRest() && Complete(tests) && sharding.Valid() && NulFree(options.filter)
      requires |testCases| <= MAX_RANGE && forall c | c in testCases :: |c.testInfoList| <= MAX_RANGE
      modifies random, testCaseIndices, vectors, testCases`shouldRun, AllTests(tests)
      ensures AtRest()
      ensures |log| == repeat
      ensures forall k | 0 <= k < |log| :: RunsOnce(log[k], ShardTests(tests, options, sharding))
      ensures !shuffle ==> forall k | 0 <= k < |log| :: log[k] == ShardTests(tests, options, sharding)
      ensures !shuffle ==> forall k | 0 <= k < |log| :: InOrderOfTests(log[k], tests)
      ensures shuffle ==> forall k | 0 <= k < |log| ::
                log[k] == RunFrom(tests, SeedAt(randomSeed, k), ShardTests(tests, options, sharding))
      ensures forall k | 0 <= k < |log| :: OnlyWanted(log[k], options)
      ensures sharding.IgnoreSharding? ==> forall k | 0 <= k < |log| :: AllWanted(tests, log[k], options)
    {
      AllStand(tests);
      ShardIsWithin(tests, options, sharding);
      ShardInOrder(tests, options, sharding);
      ghost var all, starts := AllTests(tests), Starts(tests, Names(testCases));
      log := MarkAndRepeat(options, sharding, shuffle, randomSeed, repeat, tests, all, VerdictsOf(all, options), starts,
                           ShardTests(tests, options, sharding));
      forall k | 0 <= k < |log|
        ensures RunsOnce(log[k], ShardTests(tests, options, sharding))
        ensures log[k] == Iteration(tests, shuffle, SeedAt(randomSeed, k), ShardTests(tests, options, sharding))
        ensures OnlyWanted(log[k], options)
        ensures sharding.IgnoreSharding? ==> AllWanted(tests, log[k], options)
      {
        AllRunOnceAt(log, tests, shuffle, randomSeed, ShardTests(tests, options, sharding), k);
        RunIsWanted(tests, options, sharding, log[k]);
      }
    }
  }

  /** What an iteration executes, by the names of the tests. */
  lemma {:induction false} RunIsWanted(tests: seq<TestInfo>, options: Options, sharding: ReactionToSharding,
                                       ran: seq<TestInfo>)
    requires NoDuplicates(tests) && sharding.Valid() && RunsOnce(ran, ShardTests(tests, options, sharding))
    ensures OnlyWanted(ran, options)
    ensures sharding.IgnoreSharding? ==> AllWanted(tests, ran, options)
  {
    hide Wanted;
    var shard := ShardTests(tests, options, sharding);
    ShardIsWanted(tests, options, sharding);
    forall i | 0 <= i < |ran|
      ensures Wanted(ran[i], options)
    {
      assert ran[i] in shard;
      var k :| 0 <= k < |shard| && shard[k] == ran[i];
    }
    forall i | sharding.IgnoreSharding? && 0 <= i < |tests| && Wanted(tests[i], options)
      ensures tests[i] in ran
    {
      assert tests[i] in shard;
      var k :| 0 <= k < |shard| && shard[k] == tests[i];
    }
  }

  /** Over all shards: each wanted test is executed on one shard, and any other test on none. */
  lemma {:induction false} WantedOnOneShard(tests: seq<TestInfo>, options: Options, total: nat, k: nat,
                                            runs: seq<seq<TestInfo>>) returns (home: nat)
    requires NoDuplicates(tests) && k < |tests| && |runs| == total > 0
    requires forall s | 0 <= s < total :: RunsOnce(runs[s], ShardTests(tests, options, HonorSharding(total, s)))
    ensures home < total
    ensures forall s | 0 <= s < total :: tests[k] in runs[s] <==> s == home && Wanted(tests[k], options)
  {
    hide Wanted;
    home := EachTestOnOneShard(tests, options, total, k);
    forall s | 0 <= s < total
      ensures tests[k] in runs[s] <==> tests[k] in ShardTests(tests, options, HonorSharding(total, s))
    {
      SameMembers(runs[s], ShardTests(tests, options, HonorSharding(total, s)), tests[k]);
    }
  }

  lemma {:induction false} SameMembers(ran: seq<TestInfo>, shard: seq<TestInfo>, t: TestInfo)
    requires RunsOnce(ran, shard)
    ensures t in ran <==> t in shard
  {
    if t in ran {
      var i :| 0 <= i < |ran| && ran[i] == t;
    }
    if t in shard {
      var i :| 0 <= i < |shard| && shard[i] == t;
    }
  }

  lemma {:induction false} NextIsNew<T>(s: seq<T>, k: nat)
    requires NoDuplicates(s) && k < |s|
    ensures s[k] !in s[..k] && s[..k + 1] == s[..k] + [s[k]]
  {
  }

  /** The registration of all tests of a program, before anything runs. */
  method RegisterTests(random: Random, tests: seq<TestInfo>) returns (unitTest: UnitTestImpl)
    requires NoDuplicates(tests)
    requires forall k | 0 <= k < |tests| :: NulFree(tests[k].testCaseName) && NulFree(tests[k].name)
    ensures fresh(unitTest) && fresh(unitTest.testCaseIndices) && fresh(unitTest.vectors) && unitTest.random == random
    ensures unitTest.AtRest() && unitTest.Complete(tests)
  {
    hide *;
    unitTest := new UnitTestImpl(random);
    var k := 0;
    assert tests[..0] == [];
    while k < |tests|
      invariant 0 <= k <= |tests| && unitTest.AtRest() && unitTest.Complete(tests[..k])
      invariant fresh(unitTest) && fresh(unitTest.testCaseIndices) && fresh(unitTest.vectors)
      invariant unitTest.random == random
      invariant forall i | 0 <= i < |unitTest.testCases| :: fresh(unitTest.testCases[i])
    {
      NextIsNew(tests, k);
      ghost var before := unitTest.testCases;
      unitTest.AddTestInfo(tests[k], tests[..k]);
      forall i | 0 <= i < |unitTest.testCases|
        ensures fresh(unitTest.testCases[i])
      {
        assert unitTest.testCases[i] in unitTest.testCases;
        assert unitTest.testCases[i] in before ==> fresh(unitTest.testCases[i]);
      }
      k := k + 1;
    }
    assert tests[..k] == tests;
  }
}
