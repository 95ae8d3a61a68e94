/** What a sequence of test registrations leads to. */
module Registration {
  import opened Vectors
  import opened TestInfos
  import opened TestCases
  import opened TestNames
  import opened TestOrder

  // ----- Death test cases first -----

  /** The names of death test cases, in order. */
  ghost function Deaths(names: seq<string>): seq<string> {
    if names == [] then []
    else
      var n := |names| - 1;
      Deaths(names[..n]) + if IsDeathTestCase(names[n]) then [names[n]] else []
  }

  ghost function Others(names: seq<string>): seq<string> {
    if names == [] then []
    else
      var n := |names| - 1;
      Others(names[..n]) + if IsDeathTestCase(names[n]) then [] else [names[n]]
  }

  /** The order of the test cases before any shuffle: death test cases first, each class as it was registered. */
  ghost function Sorted(names: seq<string>): seq<string> {
    Deaths(names) + Others(names)
  }

  lemma {:induction false} ClassesOf(names: seq<string>)
    ensures forall x :: x in Deaths(names) <==> x in names && IsDeathTestCase(x)
    ensures forall x :: x in Others(names) <==> x in names && !IsDeathTestCase(x)
    decreases |names|
  {
    if names != [] {
      var n := |names| - 1;
      ClassesOf(names[..n]);
      assert names == names[..n] + [names[n]];
    }
  }

  lemma {:induction false} ClassesGrow(names: seq<string>, x: string)
    ensures IsDeathTestCase(x) ==> Deaths(names + [x]) == Deaths(names) + [x] && Others(names + [x]) == Others(names)
    ensures !IsDeathTestCase(x) ==> Others(names + [x]) == Others(names) + [x] && Deaths(names + [x]) == Deaths(names)
  {
    assert (names + [x])[..|names|] == names;
  }

  /** `insert` before position `k` of a vector; at the end it is `push_back`. */
  function Inserted<T>(s: seq<T>, k: nat, x: T): (t: seq<T>)
    requires k <= |s|
    ensures |t| == |s| + 1
  {
    s[..k] + [x] + s[k..]
  }

  lemma {:induction false} InsertedMeans<T>(s: seq<T>, k: nat, x: T)
    requires k <= |s| && NoDuplicates(s) && x !in s
    ensures NoDuplicates(Inserted(s, k, x))
    ensures forall y :: y in Inserted(s, k, x) <==> y in s || y == x
  {
    var t := Inserted(s, k, x);
    forall y | y in s
      ensures y in t
    {
      var i :| 0 <= i < |s| && s[i] == y;
      assert t[if i < k then i else i + 1] == y;
    }
    assert t[k] == x;
  }

  lemma {:induction false} NamesInserted(cases: seq<TestCase>, k: nat, c: TestCase)
    requires k <= |cases|
    ensures Names(Inserted(cases, k, c)) == Inserted(Names(cases), k, c.name)
  {
  }

  lemma {:induction false} SortedGrows(names: seq<string>, x: string)
    ensures var k := if IsDeathTestCase(x) then |Deaths(names)| else |Sorted(names)|;
            Inserted(Sorted(names), k, x) == Sorted(names + [x])
    ensures |Deaths(names + [x])| == |Deaths(names)| + if IsDeathTestCase(x) then 1 else 0
  {
    ClassesGrow(names, x);
  }

  /** A new test case that is inserted after the last of its class keeps the list sorted. */
  lemma {:induction false} SortedInsert(names: seq<string>, cases: seq<TestCase>, c: TestCase, k: nat, more: seq<TestCase>)
    requires Names(cases) == Sorted(names)
    requires NoDuplicates(cases) && c !in cases
    requires k == if IsDeathTestCase(c.name) then |Deaths(names)| else |cases|
    requires more == Inserted(cases, k, c)
    ensures Names(more) == Sorted(names + [c.name])
    ensures |Deaths(names + [c.name])| == |Deaths(names)| + if IsDeathTestCase(c.name) then 1 else 0
    ensures NoDuplicates(more) && forall y :: y in more <==> y in cases || y == c
  {
    SortedGrows(names, c.name);
    InsertedMeans(cases, k, c);
    NamesInserted(cases, k, c);
  }

  lemma {:induction false} ClassesDistinct(names: seq<string>)
    requires NoDuplicates(names)
    ensures NoDuplicates(Deaths(names)) && NoDuplicates(Others(names))
    decreases |names|
  {
    if names != [] {
      var n := |names| - 1;
      ClassesDistinct(names[..n]);
      ClassesOf(names[..n]);
      assert names[n] !in names[..n];
      JoinDistinct(Deaths(names[..n]), if IsDeathTestCase(names[n]) then [names[n]] else []);
      JoinDistinct(Others(names[..n]), if IsDeathTestCase(names[n]) then [] else [names[n]]);
    }
  }

  lemma {:induction false} SortedPermutes(names: seq<string>)
    requires NoDuplicates(names)
    ensures NoDuplicates(Sorted(names))
    ensures forall x :: x in Sorted(names) <==> x in names
  {
    ClassesOf(names);
    ClassesDistinct(names);
    JoinDistinct(Deaths(names), Others(names));
  }

  lemma {:induction false} SortedMeans(names: seq<string>)
    ensures forall x :: x in Sorted(names) <==> x in names
  {
    ClassesOf(names);
  }

  /** No name of a kind comes after a name of another kind. */
  ghost predicate NamesFirst(names: seq<string>, kind: string -> bool) {
    forall i, j | 0 <= i < j < |names| && kind(names[j]) :: kind(names[i])
  }

  /** No death test case comes after another test case. */
  ghost predicate DeathsFirst(names: seq<string>) {
    NamesFirst(names, IsDeathTestCase)
  }

  lemma {:induction false} SortedAt(names: seq<string>, i: nat)
    requires i < |Sorted(names)|
    ensures IsDeathTestCase(Sorted(names)[i]) <==> i < |Deaths(names)|
  {
    ClassesOf(names);
    if i < |Deaths(names)| {
      assert Sorted(names)[i] == Deaths(names)[i] && Deaths(names)[i] in Deaths(names);
    } else {
      var k := i - |Deaths(names)|;
      assert Sorted(names)[i] == Others(names)[k] && Others(names)[k] in Others(names);
    }
  }

  /** Whatever the order within the blocks, every name is there once, and death test cases come first. */
  lemma {:induction false} PickSorted(names: seq<string>, indices: seq<nat>)
    requires InBlocks(indices, |Deaths(names)|, |Sorted(names)|) && NoDuplicates(Sorted(names))
    ensures AllBelow(indices, |Sorted(names)|)
    ensures NoDuplicates(Pick(Sorted(names), indices)) && Within(Sorted(names), Pick(Sorted(names), indices))
    ensures DeathsFirst(Pick(Sorted(names), indices))
  {
    var sorted, d := Sorted(names), |Deaths(names)|;
    BlocksPermute(indices, d, |sorted|);
    PickPermutes(sorted, indices);
    SameElements(sorted, Pick(sorted, indices));
    BlocksAreApart(indices, d, |sorted|);
    forall i | 0 <= i < |indices|
      ensures IsDeathTestCase(Pick(sorted, indices)[i]) <==> i < d
    {
      SortedAt(names, indices[i]);
    }
  }

  // ----- The tests of the test cases -----

  /** The tests of one test case, in the order of their registration. */
  ghost function TestsOf(tests: seq<TestInfo>, name: string): seq<TestInfo> {
    if tests == [] then []
    else
      var n := |tests| - 1;
      TestsOf(tests[..n], name) + if tests[n].testCaseName == name then [tests[n]] else []
  }

  /** The names of the test cases, by the first test of each. */
  ghost function FirstNames(tests: seq<TestInfo>): seq<string> {
    if tests == [] then []
    else
      var n := |tests| - 1;
      var before := FirstNames(tests[..n]);
      if tests[n].testCaseName in before then before else before + [tests[n].testCaseName]
  }

  /** The tests of the test cases of these names, one test case after the other. */
  ghost function Grouped(tests: seq<TestInfo>, names: seq<string>): seq<TestInfo> {
    if names == [] then []
    else
      var n := |names| - 1;
      Grouped(tests, names[..n]) + TestsOf(tests, names[n])
  }

  /** All tests as the lists hold them before any shuffle. */
  ghost function AllTests(tests: seq<TestInfo>): seq<TestInfo> {
    Grouped(tests, Sorted(FirstNames(tests)))
  }

  lemma {:induction false} TestsOfMeans(tests: seq<TestInfo>, name: string)
    ensures forall k | 0 <= k < |TestsOf(tests, name)| ::
              TestsOf(tests, name)[k] in tests && TestsOf(tests, name)[k].testCaseName == name
    ensures forall k | 0 <= k < |tests| && tests[k].testCaseName == name :: tests[k] in TestsOf(tests, name)
    decreases |tests|
  {
    if tests != [] {
      var n := |tests| - 1;
      var before := TestsOf(tests[..n], name);
      TestsOfMeans(tests[..n], name);
      forall k | 0 <= k < |before|
        ensures before[k] in tests
      {
        assert before[k] in tests[..n];
      }
      forall k | 0 <= k < n && tests[k].testCaseName == name
        ensures tests[k] in TestsOf(tests, name)
      {
        assert tests[..n][k] in before;
      }
    }
  }

  lemma {:induction false} TestsOfDistinct(tests: seq<TestInfo>, name: string)
    requires NoDuplicates(tests)
    ensures NoDuplicates(TestsOf(tests, name))
    decreases |tests|
  {
    if tests != [] {
      var n := |tests| - 1;
      TestsOfDistinct(tests[..n], name);
      TestsOfMeans(tests[..n], name);
      assert tests[n] !in tests[..n];
      JoinDistinct(TestsOf(tests[..n], name), if tests[n].testCaseName == name then [tests[n]] else []);
    }
  }

  lemma {:induction false} TestsOfGrow(tests: seq<TestInfo>, t: TestInfo, name: string)
    ensures TestsOf(tests + [t], name) == if t.testCaseName == name then TestsOf(tests, name) + [t] else TestsOf(tests, name)
  {
    assert (tests + [t])[..|tests|] == tests;
  }

  lemma {:induction false} FirstNamesMeans(tests: seq<TestInfo>)
    ensures NoDuplicates(FirstNames(tests))
    ensures forall k | 0 <= k < |tests| :: tests[k].testCaseName in FirstNames(tests)
    ensures forall x :: x in FirstNames(tests) ==> exists k | 0 <= k < |tests| :: tests[k].testCaseName == x
    decreases |tests|
  {
    if tests != [] {
      var n := |tests| - 1;
      FirstNamesMeans(tests[..n]);
      assert forall k | 0 <= k < n :: tests[..n][k] == tests[k];
    }
  }

  lemma {:induction false} NoTestsYet(tests: seq<TestInfo>, name: string)
    requires name !in FirstNames(tests)
    ensures TestsOf(tests, name) == []
    decreases |tests|
  {
    if tests != [] {
      NoTestsYet(tests[..|tests| - 1], name);
    }
  }

  lemma {:induction false} TestIsNew(tests: seq<TestInfo>, t: TestInfo)
    requires t !in tests && NoDuplicates(tests)
    ensures t !in TestsOf(tests, t.testCaseName) && NoDuplicates(tests + [t])
  {
    TestsOfMeans(tests, t.testCaseName);
    JoinDistinct(tests, [t]);
  }

  lemma {:induction false} FirstNamesGrow(tests: seq<TestInfo>, t: TestInfo)
    ensures var before := FirstNames(tests);
            FirstNames(tests + [t]) == if t.testCaseName in before then before else before + [t.testCaseName]
  {
    assert (tests + [t])[..|tests|] == tests;
  }

  lemma {:induction false} GroupedMeans(tests: seq<TestInfo>, names: seq<string>)
    requires NoDuplicates(tests) && NoDuplicates(names)
    ensures NoDuplicates(Grouped(tests, names))
    ensures forall k | 0 <= k < |Grouped(tests, names)| ::
              Grouped(tests, names)[k] in tests && Grouped(tests, names)[k].testCaseName in names
    ensures forall k | 0 <= k < |tests| && tests[k].testCaseName in names :: tests[k] in Grouped(tests, names)
    decreases |names|
  {
    if names != [] {
      var n := |names| - 1;
      GroupedMeans(tests, names[..n]);
      TestsOfMeans(tests, names[n]);
      TestsOfDistinct(tests, names[n]);
      assert names == names[..n] + [names[n]];
      assert names[n] !in names[..n];
      JoinDistinct(Grouped(tests, names[..n]), TestsOf(tests, names[n]));
    }
  }

  lemma {:induction false} GroupedStep(tests: seq<TestInfo>, names: seq<string>, i: nat)
    requires i < |names|
    ensures Grouped(tests, names[..i + 1]) == Grouped(tests, names[..i]) + TestsOf(tests, names[i])
  {
    assert names[..i + 1][..i] == names[..i];
  }

  lemma {:induction false} GroupedPrefix(tests: seq<TestInfo>, names: seq<string>, i: nat)
    requires i <= |names|
    ensures Grouped(tests, names[..i]) <= Grouped(tests, names)
    decreases |names| - i
  {
    if i == |names| {
      assert names[..i] == names;
    } else {
      GroupedPrefix(tests, names, i + 1);
      GroupedStep(tests, names, i);
    }
  }

  /** Where the tests of each test case start among all of them, and where the last ones end. */
  ghost function Starts(tests: seq<TestInfo>, names: seq<string>): (starts: seq<nat>)
    ensures |starts| == |names| + 1 && starts[0] == 0 && starts[|names|] == |Grouped(tests, names)|
    ensures forall i | 0 <= i <= |names| :: starts[i] == |Grouped(tests, names[..i])|
  {
    assert names[..|names|] == names;
    seq(|names| + 1, i requires 0 <= i <= |names| => |Grouped(tests, names[..i])|)
  }

  lemma {:induction false} GroupStands(tests: seq<TestInfo>, names: seq<string>, i: nat)
    requires i < |names|
    ensures var starts, all := Starts(tests, names), Grouped(tests, names);
            starts[i] <= starts[i + 1] <= |all| && all[starts[i]..starts[i + 1]] == TestsOf(tests, names[i])
  {
    GroupedStep(tests, names, i);
    GroupedPrefix(tests, names, i + 1);
    MiddlePart(Grouped(tests, names[..i]), TestsOf(tests, names[i]), Grouped(tests, names));
  }

  lemma {:induction false} MiddlePart<T>(a: seq<T>, b: seq<T>, s: seq<T>)
    requires a + b <= s
    ensures s[|a|..|a + b|] == b
  {
    assert s[..|a + b|] == a + b;
  }

  /** No test is lost and none is there twice. */
  lemma {:induction false} AllTestsAreThere(tests: seq<TestInfo>)
    requires NoDuplicates(tests)
    ensures NoDuplicates(AllTests(tests))
    ensures Within(AllTests(tests), tests) && Within(tests, AllTests(tests))
  {
    FirstNamesMeans(tests);
    SortedPermutes(FirstNames(tests));
    GroupedMeans(tests, Sorted(FirstNames(tests)));
  }
}
