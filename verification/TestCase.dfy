/** A test case: its tests, their order, and a run of them. */
module TestCases {
  import opened Common
  import opened Vectors
  import opened Shuffle
  import opened TestOrder
  import opened TestInfos

  class TestCase {
    const name: string
    var testInfoList: seq<TestInfo>
    const testIndices: Vector<nat>
    var shouldRun: bool

    ghost predicate Valid()
      reads this`testInfoList, testIndices
    {
      && IsPermutation(testIndices.items, |testInfoList|)
      && NoDuplicates(testInfoList)
      && NulFree(name)
      && forall t | t in testInfoList :: t.testCaseName == name && NulFree(t.name)
    }

    ghost predicate Unshuffled()
      reads this`testInfoList, testIndices
    {
      testIndices.items == Range(0, |testInfoList|)
    }

    /** The tests of the test case are a part of a longer list. */
    ghost predicate StandsAt(all: seq<TestInfo>, start: nat, end: nat)
      reads this`testInfoList
    {
      start <= end <= |all| && all[start..end] == testInfoList
    }

    /** The marks say to run exactly the tests of this test case that are in `shard`. */
    ghost predicate Ready(shard: seq<TestInfo>)
      reads this`testInfoList, this`shouldRun, testInfoList
    {
      && (forall k | 0 <= k < |testInfoList| :: testInfoList[k].shouldRun == (testInfoList[k] in shard))
      && (shouldRun <==> Kept(testInfoList, shard) != [])
    }

    constructor (name: string)
      requires NulFree(name)
      ensures this.name == name && testInfoList == [] && !shouldRun
      ensures Valid() && Unshuffled() && fresh(testIndices)
    {
      this.name, testInfoList, shouldRun := name, [], false;
      testIndices := new Vector();
    }

    /** `AddTestInfo` */
    method AddTestInfo(testInfo: TestInfo)
      requires Valid() && testInfo !in testInfoList && testInfo.testCaseName == name && NulFree(testInfo.name)
      modifies this`testInfoList, testIndices
      ensures Valid()
      ensures testInfoList == old(testInfoList) + [testInfo]
      ensures old(Unshuffled()) ==> Unshuffled()
    {
      ghost var n := |testInfoList|;
      IndicesAreInRange(testIndices.items, n);
      assert Range(0, n + 1) == Range(0, n) + [n];
      testInfoList := testInfoList + [testInfo];
      testIndices.PushBack(|testIndices.items|);
    }

    /** The tests in their present order. */
    ghost function Order(): (order: seq<TestInfo>)
      requires Valid()
      reads this`testInfoList, testIndices
      ensures |order| == |testInfoList|
      ensures forall k | 0 <= k < |order| :: order[k] in testInfoList
    {
      PickPermutes(testInfoList, testIndices.items);
      IndicesAreInRange(testIndices.items, |testInfoList|);
      Pick(testInfoList, testIndices.items)
    }

    /** `GetMutableTestInfo` */
    function GetMutableTestInfo(i: int): (t: TestInfo?)
      requires Valid()
      reads this`testInfoList, testIndices
      ensures 0 <= i < |testInfoList| ==> t == Order()[i]
      ensures !(0 <= i < |testInfoList|) ==> t == null
    {
      IndicesAreInRange(testIndices.items, |testInfoList|);
      if 0 <= i < |testIndices.items| then testInfoList[testIndices.items[i]] else null
    }

    /** `TestCase::ShuffleTests` */
    method ShuffleTests(random: Random)
      requires Valid() && |testInfoList| <= MAX_RANGE
      modifies random, testIndices
      ensures Valid()
      ensures testIndices.items == ShuffledFrom(old(testIndices.items), old(random.state))
      ensures random.state == After(old(random.state), |testInfoList|)
    {
      ghost var was := testIndices.items;
      IndicesAreInRange(was, |testInfoList|);
      ShuffleRange(random, 0, |testIndices.items|, testIndices);
      WholeRange(was, old(random.state), testIndices.items);
    }

    /** `TestCase::UnshuffleTests` */
    method UnshuffleTests()
      requires Valid()
      modifies testIndices
      ensures Valid() && Unshuffled()
    {
      IndicesAreInRange(testIndices.items, |testInfoList|);
      var i := 0;
      while i < |testIndices.items|
        invariant 0 <= i <= |testIndices.items| == |testInfoList|
        invariant testIndices.items[..i] == Range(0, i)
      {
        RangeGrows(testIndices.items, i);
        testIndices.items := testIndices.items[i := i];
        i := i + 1;
      }
      assert testIndices.items[..i] == testIndices.items;
    }

    /** The tests a run executes. */
    ghost function Runs(): seq<TestInfo>
      requires Valid()
      reads this, testIndices, testInfoList
    {
      if shouldRun then Chosen(Order()) else []
    }

    /** A run would execute these tests. */
    ghost predicate Will(part: seq<TestInfo>)
      reads this, testIndices, testInfoList
    {
      Valid() && part == Runs()
    }

    /** `TestCase::Run`: the tests whose bodies are executed, in the order of execution. */
    method Run() returns (ran: seq<TestInfo>)
      requires Valid()
      ensures ran == Runs()
    {
      ran := [];
      if !shouldRun {
        return;
      }
      var i := 0;
      ghost var order := Order();
      while i < |testInfoList|
        invariant 0 <= i <= |order| && ran == Chosen(order[..i])
      {
        var t := GetMutableTestInfo(i);
        ChosenStep(order, i);
        if t.shouldRun {
          ran := ran + [t];
        }
        i := i + 1;
      }
      assert order[..i] == order;
    }
  }

  function Names(cases: seq<TestCase>): (names: seq<string>)
    ensures |names| == |cases| && forall i | 0 <= i < |cases| :: names[i] == cases[i].name
  {
    seq(|cases|, i requires 0 <= i < |cases| => cases[i].name)
  }

  lemma {:induction false} NamesPicked(cases: seq<TestCase>, indices: seq<nat>)
    requires AllBelow(indices, |cases|)
    ensures Names(Pick(cases, indices)) == Pick(Names(cases), indices)
  {
  }

  lemma {:induction false} NamesDistinct(cases: seq<TestCase>)
    requires NoDuplicates(cases)
    requires forall c, d | c in cases && d in cases && c != d :: c.name != d.name
    ensures NoDuplicates(Names(cases))
  {
  }

  ghost function OrdersOf(order: seq<TestCase>, cases: seq<TestCase>, vectors: set<Vector<nat>>): (lists: seq<seq<TestInfo>>)
    requires forall k | 0 <= k < |order| :: order[k] in cases
    requires forall c | c in cases :: c.testIndices in vectors
    reads cases`testInfoList, vectors
    requires forall c | c in cases :: c.Valid()
    ensures |lists| == |order| && forall k | 0 <= k < |order| :: lists[k] == order[k].Order()
  {
    if order == [] then []
    else
      var n := |order| - 1;
      OrdersOf(order[..n], cases, vectors) + [order[n].Order()]
  }

  ghost function ListsOf(cases: seq<TestCase>, vectors: set<Vector<nat>>): (lists: seq<seq<nat>>)
    requires forall c | c in cases :: c.testIndices in vectors
    reads vectors
    ensures |lists| == |cases| && forall i | 0 <= i < |cases| :: lists[i] == cases[i].testIndices.items
  {
    if cases == [] then []
    else
      var n := |cases| - 1;
      ListsOf(cases[..n], vectors) + [cases[n].testIndices.items]
  }
}
