/** In which order tests stand and run, given the order in which they were registered. */
module RunOrders {
  import opened Vectors
  import opened TestNames
  import opened TestInfos
  import opened Registration
  import opened TestRuns
  import opened ShardSelection

  // ----- Before and after -----

  ghost predicate Before<T>(s: seq<T>, x: T, y: T) {
    exists i, j | 0 <= i < j < |s| :: s[i] == x && s[j] == y
  }

  lemma {:induction false} BeforeInFront<T>(a: seq<T>, b: seq<T>, x: T, y: T)
    requires Before(a, x, y)
    ensures Before(a + b, x, y)
  {
    var i, j :| 0 <= i < j < |a| && a[i] == x && a[j] == y;
    assert (a + b)[i] == x && (a + b)[j] == y;
  }

  lemma {:induction false} BeforeInBack<T>(a: seq<T>, b: seq<T>, x: T, y: T)
    requires Before(b, x, y)
    ensures Before(a + b, x, y)
  {
    var i, j :| 0 <= i < j < |b| && b[i] == x && b[j] == y;
    assert (a + b)[|a| + i] == x && (a + b)[|a| + j] == y;
  }

  lemma {:induction false} BeforeAcross<T>(a: seq<T>, b: seq<T>, x: T, y: T)
    requires x in a && y in b
    ensures Before(a + b, x, y)
  {
    var i :| 0 <= i < |a| && a[i] == x;
    var j :| 0 <= j < |b| && b[j] == y;
    assert (a + b)[i] == x && (a + b)[|a| + j] == y;
  }

  lemma {:induction false} BeforeWhere<T>(a: seq<T>, b: seq<T>, x: T, y: T)
    requires Before(a + b, x, y)
    ensures Before(a, x, y) || Before(b, x, y) || (x in a && y in b)
  {
    var i, j :| 0 <= i < j < |a + b| && (a + b)[i] == x && (a + b)[j] == y;
    if j < |a| {
      assert a[i] == x && a[j] == y;
    } else if i >= |a| {
      assert b[i - |a|] == x && b[j - |a|] == y;
    } else {
      assert a[i] == x && b[j - |a|] == y;
    }
  }

  lemma {:induction false} BeforeJoined<T>(a: seq<T>, b: seq<T>, x: T, y: T)
    ensures Before(a + b, x, y) <==> Before(a, x, y) || Before(b, x, y) || (x in a && y in b)
  {
    hide Before;
    if Before(a + b, x, y) {
      BeforeWhere(a, b, x, y);
    } else if Before(a, x, y) {
      BeforeInFront(a, b, x, y);
    } else if Before(b, x, y) {
      BeforeInBack(a, b, x, y);
    } else if x in a && y in b {
      BeforeAcross(a, b, x, y);
    }
  }

  /** One more element at the end comes after all the others. */
  lemma {:induction false} BeforeLast<T>(s: seq<T>, last: seq<T>, x: T, y: T)
    requires |last| <= 1
    ensures Before(s + last, x, y) <==> Before(s, x, y) || (x in s && last == [y])
  {
    BeforeJoined(s, last, x, y);
  }

  lemma {:induction false} BeforeEither<T>(s: seq<T>, x: T, y: T)
    requires x in s && y in s && x != y
    ensures Before(s, x, y) || Before(s, y, x)
  {
    var i :| 0 <= i < |s| && s[i] == x;
    var j :| 0 <= j < |s| && s[j] == y;
  }

  lemma {:induction false} NotBoth<T>(s: seq<T>, x: T, y: T)
    requires NoDuplicates(s) && Before(s, x, y)
    ensures !Before(s, y, x)
  {
  }

  lemma {:induction false} BeforeIsIn<T>(s: seq<T>, x: T, y: T)
    requires Before(s, x, y)
    ensures x in s && y in s
  {
  }

  // ----- The order of the lists -----

  lemma {:induction false} DeathsInOrder(names: seq<string>, a: string, b: string)
    requires Before(names, a, b) && IsDeathTestCase(a) && IsDeathTestCase(b)
    ensures Before(Deaths(names), a, b)
    decreases |names|
  {
    hide Before, IsDeathTestCase;
    BeforeIsIn(names, a, b);
    SplitLast(names);
    var front, last := names[..|names| - 1], names[|names| - 1];
    BeforeLast(front, [last], a, b);
    BeforeLast(Deaths(front), if IsDeathTestCase(last) then [last] else [], a, b);
    ClassesOf(front);
    if Before(front, a, b) {
      DeathsInOrder(front, a, b);
    }
  }

  lemma {:induction false} OthersInOrder(names: seq<string>, a: string, b: string)
    requires Before(names, a, b) && !IsDeathTestCase(a) && !IsDeathTestCase(b)
    ensures Before(Others(names), a, b)
    decreases |names|
  {
    hide Before, IsDeathTestCase;
    BeforeIsIn(names, a, b);
    SplitLast(names);
    var front, last := names[..|names| - 1], names[|names| - 1];
    BeforeLast(front, [last], a, b);
    BeforeLast(Others(front), if IsDeathTestCase(last) then [] else [last], a, b);
    ClassesOf(front);
    if Before(front, a, b) {
      OthersInOrder(front, a, b);
    }
  }

  /** The death test case of two comes first; of two of the same class, the one that was registered first. */
  ghost predicate Precedes(names: seq<string>, a: string, b: string) {
    if IsDeathTestCase(a) == IsDeathTestCase(b) then Before(names, a, b) else IsDeathTestCase(a)
  }

  lemma {:induction false} PrecedesInSorted(names: seq<string>, a: string, b: string)
    requires a in names && b in names && Precedes(names, a, b)
    ensures Before(Sorted(names), a, b)
  {
    hide Before, IsDeathTestCase;
    BeforeJoined(Deaths(names), Others(names), a, b);
    ClassesOf(names);
    if IsDeathTestCase(a) && IsDeathTestCase(b) {
      DeathsInOrder(names, a, b);
    } else if !IsDeathTestCase(a) && !IsDeathTestCase(b) {
      OthersInOrder(names, a, b);
    }
  }

  /** The first test of test case `a` was registered before any of test case `b`. */
  ghost predicate StartsFirst(tests: seq<TestInfo>, a: string, b: string) {
    exists k | 0 <= k < |tests| :: tests[k].testCaseName == a && NoneUpTo(tests, k, b)
  }

  ghost predicate NoneUpTo(tests: seq<TestInfo>, k: nat, name: string)
    requires k < |tests|
  {
    forall m | 0 <= m <= k :: tests[m].testCaseName != name
  }

  lemma {:induction false} NoneUpToGrows(tests: seq<TestInfo>, t: TestInfo, k: nat, name: string)
    requires k < |tests|
    ensures NoneUpTo(tests + [t], k, name) <==> NoneUpTo(tests, k, name)
  {
    assert forall m | 0 <= m <= k :: (tests + [t])[m] == tests[m];
  }

  lemma {:induction false} StartsFirstGrows(tests: seq<TestInfo>, t: TestInfo, a: string, b: string)
    ensures StartsFirst(tests, a, b) ==> StartsFirst(tests + [t], a, b)
    ensures StartsFirst(tests + [t], a, b) && b in FirstNames(tests) ==> StartsFirst(tests, a, b)
    ensures a in FirstNames(tests) && b !in FirstNames(tests) ==> StartsFirst(tests, a, b)
    ensures StartsFirst(tests + [t], a, b) && t.testCaseName == b ==> a in FirstNames(tests)
  {
    var more := tests + [t];
    FirstNamesMeans(tests);
    if StartsFirst(tests, a, b) {
      var k :| 0 <= k < |tests| && tests[k].testCaseName == a && NoneUpTo(tests, k, b);
      NoneUpToGrows(tests, t, k, b);
      assert more[k].testCaseName == a && NoneUpTo(more, k, b);
    }
    if StartsFirst(more, a, b) {
      var k :| 0 <= k < |more| && more[k].testCaseName == a && NoneUpTo(more, k, b);
      if b in FirstNames(tests) {
        var m :| 0 <= m < |tests| && tests[m].testCaseName == b;
        assert more[m].testCaseName == b;
        NoneUpToGrows(tests, t, k, b);
        assert tests[k].testCaseName == a && NoneUpTo(tests, k, b);
      } else if t.testCaseName == b {
        assert more[|tests|].testCaseName == b;
        assert tests[k].testCaseName == a;
      }
    }
    if a in FirstNames(tests) && b !in FirstNames(tests) {
      var k :| 0 <= k < |tests| && tests[k].testCaseName == a;
      assert NoneUpTo(tests, k, b);
    }
  }

  lemma {:induction false} FirstNamesInOrder(tests: seq<TestInfo>, a: string, b: string)
    ensures Before(FirstNames(tests), a, b) <==> StartsFirst(tests, a, b) && b in FirstNames(tests)
    decreases |tests|
  {
    if tests != [] {
      hide Before, StartsFirst;
      SplitLast(tests);
      var front, last := tests[..|tests| - 1], tests[|tests| - 1];
      var before, name := FirstNames(front), last.testCaseName;
      FirstNamesInOrder(front, a, b);
      StartsFirstGrows(front, last, a, b);
      BeforeLast(before, if name in before then [] else [name], a, b);
      assert FirstNames(tests) == before + if name in before then [] else [name];
    }
  }

  lemma {:induction false} TestsOfInOrder(tests: seq<TestInfo>, name: string, x: TestInfo, y: TestInfo)
    requires Before(tests, x, y) && x.testCaseName == y.testCaseName == name
    ensures Before(TestsOf(tests, name), x, y)
    decreases |tests|
  {
    hide Before;
    BeforeIsIn(tests, x, y);
    SplitLast(tests);
    var front, last := tests[..|tests| - 1], tests[|tests| - 1];
    BeforeLast(front, [last], x, y);
    BeforeLast(TestsOf(front, name), if last.testCaseName == name then [last] else [], x, y);
    TestsOfMeans(front, name);
    if Before(front, x, y) {
      TestsOfInOrder(front, name, x, y);
    } else {
      var k :| 0 <= k < |front| && front[k] == x;
    }
  }

  lemma {:induction false} GroupedHas(tests: seq<TestInfo>, names: seq<string>, x: TestInfo)
    requires x in tests && x.testCaseName in names
    ensures x in Grouped(tests, names)
    decreases |names|
  {
    SplitLast(names);
    var front, last := names[..|names| - 1], names[|names| - 1];
    if x.testCaseName == last {
      TestsOfMeans(tests, last);
      var k :| 0 <= k < |tests| && tests[k] == x;
    } else {
      GroupedHas(tests, front, x);
    }
  }

  lemma {:induction false} GroupsInOrder(tests: seq<TestInfo>, names: seq<string>, x: TestInfo, y: TestInfo)
    requires x in tests && y in tests && Before(names, x.testCaseName, y.testCaseName)
    ensures Before(Grouped(tests, names), x, y)
    decreases |names|
  {
    hide Before;
    BeforeIsIn(names, x.testCaseName, y.testCaseName);
    SplitLast(names);
    var front, last := names[..|names| - 1], names[|names| - 1];
    BeforeLast(front, [last], x.testCaseName, y.testCaseName);
    BeforeJoined(Grouped(tests, front), TestsOf(tests, last), x, y);
    if Before(front, x.testCaseName, y.testCaseName) {
      GroupsInOrder(tests, front, x, y);
    } else {
      GroupedHas(tests, front, x);
      TestsOfMeans(tests, last);
      var k :| 0 <= k < |tests| && tests[k] == y;
    }
  }

  lemma {:induction false} WithinGroup(tests: seq<TestInfo>, names: seq<string>, name: string, x: TestInfo, y: TestInfo)
    requires name in names && Before(TestsOf(tests, name), x, y)
    ensures Before(Grouped(tests, names), x, y)
    decreases |names|
  {
    hide Before;
    SplitLast(names);
    var front, last := names[..|names| - 1], names[|names| - 1];
    BeforeJoined(Grouped(tests, front), TestsOf(tests, last), x, y);
    if name != last {
      WithinGroup(tests, front, name, x, y);
    }
  }

  /**
   * Which of two tests comes first: of the same test case, the one that was registered first; of different test cases,
   * a death test; of different test cases of the same class, the one whose test case was the first to have a test.
   */
  ghost predicate ComesFirst(tests: seq<TestInfo>, x: TestInfo, y: TestInfo) {
    var a, b := x.testCaseName, y.testCaseName;
    if a == b then Before(tests, x, y)
    else if IsDeathTestCase(a) == IsDeathTestCase(b) then StartsFirst(tests, a, b)
    else IsDeathTestCase(a)
  }

  lemma {:induction false} FirstIsBefore(tests: seq<TestInfo>, x: TestInfo, y: TestInfo)
    requires x in tests && y in tests && ComesFirst(tests, x, y)
    ensures Before(AllTests(tests), x, y)
  {
    hide Before, StartsFirst, IsDeathTestCase;
    var names, a, b := FirstNames(tests), x.testCaseName, y.testCaseName;
    NameIsThere(tests, x);
    NameIsThere(tests, y);
    if a == b {
      TestsOfInOrder(tests, a, x, y);
      SortedMeans(names);
      WithinGroup(tests, Sorted(names), a, x, y);
    } else {
      FirstNamesInOrder(tests, a, b);
      PrecedesInSorted(names, a, b);
      GroupsInOrder(tests, Sorted(names), x, y);
    }
  }

  lemma {:induction false} NameIsThere(tests: seq<TestInfo>, x: TestInfo)
    requires x in tests
    ensures x.testCaseName in FirstNames(tests)
  {
    FirstNamesMeans(tests);
    var k :| 0 <= k < |tests| && tests[k] == x;
  }

  lemma {:induction false} OneComesFirst(tests: seq<TestInfo>, x: TestInfo, y: TestInfo)
    requires x in tests && y in tests && x != y
    ensures ComesFirst(tests, x, y) || ComesFirst(tests, y, x)
  {
    hide Before, StartsFirst, IsDeathTestCase;
    var names, a, b := FirstNames(tests), x.testCaseName, y.testCaseName;
    NameIsThere(tests, x);
    NameIsThere(tests, y);
    if a == b {
      BeforeEither(tests, x, y);
    } else {
      BeforeEither(names, a, b);
      FirstNamesInOrder(tests, a, b);
      FirstNamesInOrder(tests, b, a);
    }
  }

  /** The order of all tests before any shuffle, given by the order of their registration. */
  lemma {:induction false} OrderOfTests(tests: seq<TestInfo>, x: TestInfo, y: TestInfo)
    requires NoDuplicates(tests) && x in tests && y in tests && x != y
    ensures Before(AllTests(tests), x, y) <==> ComesFirst(tests, x, y)
  {
    hide Before, ComesFirst;
    AllTestsAreThere(tests);
    if ComesFirst(tests, x, y) {
      FirstIsBefore(tests, x, y);
    } else {
      OneComesFirst(tests, x, y);
      FirstIsBefore(tests, y, x);
      NotBoth(AllTests(tests), y, x);
    }
  }

  // ----- The order of a run -----

  /** What is kept of a list stays in its order. */
  lemma {:induction false} KeptInOrder(list: seq<TestInfo>, shard: seq<TestInfo>, x: TestInfo, y: TestInfo)
    ensures Before(Kept(list, shard), x, y) <==> Before(list, x, y) && x in shard && y in shard
    decreases |list|
  {
    if list != [] {
      hide Before;
      SplitLast(list);
      var front, last := list[..|list| - 1], list[|list| - 1];
      KeptInOrder(front, shard, x, y);
      BeforeLast(front, [last], x, y);
      BeforeLast(Kept(front, shard), if last in shard then [last] else [], x, y);
      KeptHas(front, shard, x);
    }
  }

  lemma {:induction false} KeptHas(list: seq<TestInfo>, shard: seq<TestInfo>, x: TestInfo)
    ensures x in Kept(list, shard) <==> x in list && x in shard
    decreases |list|
  {
    if list != [] {
      SplitLast(list);
      KeptHas(list[..|list| - 1], shard, x);
    }
  }

  /** Every test comes after those that `ComesFirst` puts before it. */
  ghost predicate InOrderOfTests(ran: seq<TestInfo>, tests: seq<TestInfo>) {
    forall i, j | 0 <= i < j < |ran| :: ComesFirst(tests, ran[i], ran[j])
  }

  /** A shard runs its tests in the order of all tests. Ignoring shards, this is the order in which tests are dealt. */
  lemma {:induction false} ShardInOrder(tests: seq<TestInfo>, options: Options, sharding: ReactionToSharding)
    requires NoDuplicates(tests) && sharding.Valid()
    ensures InOrderOfTests(ShardTests(tests, options, sharding), tests)
  {
    var all, shard := AllTests(tests), ShardTests(tests, options, sharding);
    ShardIsWithin(tests, options, sharding);
    AllTestsAreThere(tests);
    KeptDistinct(all, shard);
    forall i, j | 0 <= i < j < |shard|
      ensures ComesFirst(tests, shard[i], shard[j])
    {
      KeptInOrder(all, shard, shard[i], shard[j]);
      OrderOfTests(tests, shard[i], shard[j]);
    }
  }

  /** The tests of one list are executed after those of the lists before it. */
  lemma {:induction false} ListsInTurn(lists: seq<seq<TestInfo>>, n: nat, shard: seq<TestInfo>, i: nat, j: nat,
                                       x: TestInfo, y: TestInfo)
    requires i < j < n <= |lists| && x in lists[i] && y in lists[j] && x in shard && y in shard
    ensures Before(Executed(lists, n, shard), x, y)
    decreases n
  {
    hide Before;
    var before, last := Executed(lists, n - 1, shard), Kept(lists[n - 1], shard);
    BeforeJoined(before, last, x, y);
    if j == n - 1 {
      var k :| 0 <= k < |lists[i]| && lists[i][k] == x;
      ExecutedHas(lists, n - 1, shard, i, k);
      KeptHas(lists[j], shard, y);
    } else {
      ListsInTurn(lists, n - 1, shard, i, j, x, y);
    }
  }

  /** The tests of one list are executed in the order of the list. */
  lemma {:induction false} ListInOrder(lists: seq<seq<TestInfo>>, n: nat, shard: seq<TestInfo>, i: nat,
                                       x: TestInfo, y: TestInfo)
    requires i < n <= |lists| && Before(lists[i], x, y) && x in shard && y in shard
    ensures Before(Executed(lists, n, shard), x, y)
    decreases n
  {
    hide Before;
    var before, last := Executed(lists, n - 1, shard), Kept(lists[n - 1], shard);
    BeforeJoined(before, last, x, y);
    if i == n - 1 {
      KeptInOrder(lists[i], shard, x, y);
    } else {
      ListInOrder(lists, n - 1, shard, i, x, y);
    }
  }
}
