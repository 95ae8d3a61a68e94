/** A registered test, and what the marks of a list of tests choose. */
module TestInfos {
  import opened Vectors
  import opened TestFilter
  import opened TestNames

  /** The flags that decide which tests run. */
  datatype Options = Options(filter: string, alsoRunDisabled: bool)

  /** A runnable test runs on some shard. */
  datatype Verdict = Verdict(isDisabled: bool, matchesFilter: bool, isRunnable: bool)

  class TestInfo {
    const testCaseName: string
    const name: string
    var isDisabled: bool
    var matchesFilter: bool
    var shouldRun: bool

    constructor (testCaseName: string, name: string)
      ensures this.testCaseName == testCaseName && this.name == name
      ensures !isDisabled && !matchesFilter && !shouldRun
    {
      this.testCaseName, this.name := testCaseName, name;
      isDisabled, matchesFilter, shouldRun := false, false, false;
    }

    /** What the names of the test and the flags say about it. */
    ghost function VerdictOf(options: Options): Verdict {
      var isDisabled, matchesFilter := IsDisabled(testCaseName, name), Selects(options.filter, FullName(testCaseName, name));
      Verdict(isDisabled, matchesFilter, (options.alsoRunDisabled || !isDisabled) && matchesFilter)
    }
  }

  /**
   * The filter selects the test by its full name, and neither its own name nor that of its test case is marked as
   * disabled, unless disabled tests are to run as well.
   */
  ghost predicate Wanted(t: TestInfo, options: Options) {
    && Selects(options.filter, t.testCaseName + "." + t.name)
    && (options.alsoRunDisabled || (!LooksDisabled(t.testCaseName) && !LooksDisabled(t.name)))
  }

  /** The tests to be run are known by their names. */
  lemma {:induction false} RunnableIsWanted(t: TestInfo, options: Options)
    ensures t.VerdictOf(options).isRunnable <==> Wanted(t, options)
    ensures t.VerdictOf(options).isDisabled <==> LooksDisabled(t.testCaseName) || LooksDisabled(t.name)
    ensures t.VerdictOf(options).matchesFilter <==> Selects(options.filter, t.testCaseName + "." + t.name)
  {
    DisabledNames(t.testCaseName, t.name);
  }

  ghost predicate OnlyWanted(tests: seq<TestInfo>, options: Options) {
    forall i | 0 <= i < |tests| :: Wanted(tests[i], options)
  }

  /** Every one of `tests` that is wanted is in `ran`. */
  ghost predicate AllWanted(tests: seq<TestInfo>, ran: seq<TestInfo>, options: Options) {
    forall i | 0 <= i < |tests| :: Wanted(tests[i], options) ==> tests[i] in ran
  }

  /** The tests marked to run, in order. */
  ghost function Chosen(tests: seq<TestInfo>): (chosen: seq<TestInfo>)
    reads tests
  {
    if tests == [] then []
    else
      var n := |tests| - 1;
      Chosen(tests[..n]) + if tests[n].shouldRun then [tests[n]] else []
  }

  lemma {:induction false} ChosenStep(tests: seq<TestInfo>, i: nat)
    requires i < |tests|
    ensures Chosen(tests[..i + 1]) == if tests[i].shouldRun then Chosen(tests[..i]) + [tests[i]] else Chosen(tests[..i])
  {
    assert tests[..i + 1][..i] == tests[..i];
  }

  // ----- The tests of a list that are in a shard -----

  /** The tests of a list that are in `shard`, in the order of the list. */
  ghost function Kept(list: seq<TestInfo>, shard: seq<TestInfo>): (kept: seq<TestInfo>)
    ensures |kept| <= |list|
  {
    if list == [] then []
    else
      var n := |list| - 1;
      Kept(list[..n], shard) + if list[n] in shard then [list[n]] else []
  }

  lemma {:induction false} KeptMeans(list: seq<TestInfo>, shard: seq<TestInfo>)
    ensures forall k | 0 <= k < |Kept(list, shard)| :: Kept(list, shard)[k] in list && Kept(list, shard)[k] in shard
    ensures forall k | 0 <= k < |list| && list[k] in shard :: list[k] in Kept(list, shard)
    decreases |list|
  {
    if list != [] {
      var n := |list| - 1;
      KeptMeans(list[..n], shard);
      assert forall k | 0 <= k < n :: list[..n][k] == list[k];
    }
  }

  lemma {:induction false} KeptDistinct(list: seq<TestInfo>, shard: seq<TestInfo>)
    requires NoDuplicates(list)
    ensures NoDuplicates(Kept(list, shard))
    decreases |list|
  {
    if list != [] {
      var n := |list| - 1;
      KeptDistinct(list[..n], shard);
      KeptMeans(list[..n], shard);
      assert list[n] !in list[..n];
      JoinDistinct(Kept(list[..n], shard), if list[n] in shard then [list[n]] else []);
    }
  }

  ghost predicate AllNamed(list: seq<TestInfo>, name: string) {
    forall k | 0 <= k < |list| :: list[k].testCaseName == name
  }

  lemma {:induction false} KeptIsNamed(list: seq<TestInfo>, name: string, shard: seq<TestInfo>)
    requires AllNamed(list, name)
    ensures AllNamed(Kept(list, shard), name)
  {
    KeptMeans(list, shard);
  }

  lemma {:induction false} ChosenIsKept(list: seq<TestInfo>, shard: seq<TestInfo>)
    requires forall k | 0 <= k < |list| :: list[k].shouldRun == (list[k] in shard)
    ensures Chosen(list) == Kept(list, shard)
    decreases |list|
  {
    if list != [] {
      assert forall k | 0 <= k < |list| - 1 :: list[..|list| - 1][k] == list[k];
      ChosenIsKept(list[..|list| - 1], shard);
    }
  }

  lemma {:induction false} NothingKept(list: seq<TestInfo>, shard: seq<TestInfo>)
    requires forall k | 0 <= k < |list| :: list[k] !in shard
    ensures Kept(list, shard) == []
    decreases |list|
  {
    if list != [] {
      assert forall k | 0 <= k < |list| - 1 :: list[..|list| - 1][k] == list[k];
      NothingKept(list[..|list| - 1], shard);
    }
  }

  lemma {:induction false} KeptGrows(list: seq<TestInfo>, x: TestInfo, shard: seq<TestInfo>)
    ensures Kept(list + [x], shard) == Kept(list, shard) + if x in shard then [x] else []
  {
    assert (list + [x])[..|list|] == list;
  }

  lemma {:induction false} KeptJoins(a: seq<TestInfo>, b: seq<TestInfo>, shard: seq<TestInfo>)
    ensures Kept(a + b, shard) == Kept(a, shard) + Kept(b, shard)
    decreases |b|
  {
    if b == [] {
      assert a + b == a;
    } else {
      var n := |b| - 1;
      KeptJoins(a, b[..n], shard);
      assert a + b == (a + b[..n]) + [b[n]];
      KeptGrows(a + b[..n], b[n], shard);
    }
  }
}
