/** What a run of the test cases executes. */
module TestRuns {
  import opened Vectors
  import opened TestInfos
  import opened TestNames
  import opened Registration

  /** The first `n` test cases run one after the other; each runs those of its tests that are in `shard`. */
  ghost function Executed(lists: seq<seq<TestInfo>>, n: nat, shard: seq<TestInfo>): seq<TestInfo>
    requires n <= |lists|
  {
    if n == 0 then [] else Executed(lists, n - 1, shard) + Kept(lists[n - 1], shard)
  }

  /** What each test case contributes to a run. */
  ghost function Parts(lists: seq<seq<TestInfo>>, shard: seq<TestInfo>): (parts: seq<seq<TestInfo>>)
    ensures |parts| == |lists|
  {
    if lists == [] then []
    else
      var n := |lists| - 1;
      Parts(lists[..n], shard) + [Kept(lists[n], shard)]
  }

  lemma {:induction false} PartsAre(lists: seq<seq<TestInfo>>, shard: seq<TestInfo>, i: nat)
    requires i < |lists|
    ensures Parts(lists, shard)[i] == Kept(lists[i], shard)
    decreases |lists|
  {
    if i < |lists| - 1 {
      PartsAre(lists[..|lists| - 1], shard, i);
    }
  }

  lemma {:induction false} ExecutedIsJoined(lists: seq<seq<TestInfo>>, n: nat, shard: seq<TestInfo>)
    requires n <= |lists|
    ensures Joined(Parts(lists, shard), n) == Executed(lists, n, shard)
  {
    if n > 0 {
      ExecutedIsJoined(lists, n - 1, shard);
      PartsAre(lists, shard, n - 1);
    }
  }

  /** The i-th list holds tests of the i-th test case only. */
  ghost predicate ListsOfCases(lists: seq<seq<TestInfo>>, names: seq<string>) {
    && |lists| == |names|
    && forall i | 0 <= i < |lists| :: NoDuplicates(lists[i]) && AllNamed(lists[i], names[i])
  }

  /** What is executed is in the shard, belongs to a test case that was visited, and is executed once. */
  lemma {:induction false} ExecutedMeans(lists: seq<seq<TestInfo>>, names: seq<string>, n: nat, shard: seq<TestInfo>)
    requires ListsOfCases(lists, names) && NoDuplicates(names) && n <= |lists|
    ensures NoDuplicates(Executed(lists, n, shard)) && Within(Executed(lists, n, shard), shard)
    ensures forall k | 0 <= k < |Executed(lists, n, shard)| :: Executed(lists, n, shard)[k].testCaseName in names[..n]
  {
    if n > 0 {
      var before, last, name := Executed(lists, n - 1, shard), Kept(lists[n - 1], shard), names[n - 1];
      ExecutedMeans(lists, names, n - 1, shard);
      KeptMeans(lists[n - 1], shard);
      KeptDistinct(lists[n - 1], shard);
      assert names[..n] == names[..n - 1] + [name] && name !in names[..n - 1];
      KeptIsNamed(lists[n - 1], name, shard);
      forall k | 0 <= k < |last|
        ensures last[k] !in before
      {
        assert last[k].testCaseName == name;
      }
      JoinDistinct(before, last);
    }
  }

  /** Whatever is in the shard and in one of the lists is executed. */
  lemma {:induction false} ExecutedHas(lists: seq<seq<TestInfo>>, n: nat, shard: seq<TestInfo>, i: nat, k: nat)
    requires i < n <= |lists| && k < |lists[i]| && lists[i][k] in shard
    ensures lists[i][k] in Executed(lists, n, shard)
    decreases n
  {
    if i == n - 1 {
      KeptMeans(lists[i], shard);
    } else {
      ExecutedHas(lists, n - 1, shard, i, k);
    }
  }

  /** No test of a test case of a kind comes after a test of a test case of another kind. */
  ghost predicate TestsFirst(ran: seq<TestInfo>, kind: string -> bool) {
    forall i, j | 0 <= i < j < |ran| && kind(ran[j].testCaseName) :: kind(ran[i].testCaseName)
  }

  /** No death test comes after another test. */
  ghost predicate DeathTestsFirst(ran: seq<TestInfo>) {
    TestsFirst(ran, IsDeathTestCase)
  }

  /** The tests of a test case may follow if they are of another kind, or if only tests of the kind came before. */
  lemma {:induction false} MoreInOrder(before: seq<TestInfo>, last: seq<TestInfo>, name: string, kind: string -> bool)
    requires TestsFirst(before, kind) && AllNamed(last, name)
    requires kind(name) ==> forall k | 0 <= k < |before| :: kind(before[k].testCaseName)
    ensures TestsFirst(before + last, kind)
  {
  }

  lemma {:induction false} KindBefore(names: seq<string>, n: nat, x: string, kind: string -> bool)
    requires NamesFirst(names, kind) && n < |names| && x in names[..n] && kind(names[n])
    ensures kind(x)
  {
    var i :| 0 <= i < n && names[..n][i] == x;
    assert names[i] == x;
  }

  lemma {:induction false} ExecutedInOrder(lists: seq<seq<TestInfo>>, names: seq<string>, n: nat, shard: seq<TestInfo>,
                                           kind: string -> bool)
    requires ListsOfCases(lists, names) && NoDuplicates(names) && NamesFirst(names, kind) && n <= |lists|
    ensures TestsFirst(Executed(lists, n, shard), kind)
  {
    if n > 0 {
      var before, last := Executed(lists, n - 1, shard), Kept(lists[n - 1], shard);
      ExecutedInOrder(lists, names, n - 1, shard, kind);
      ExecutedMeans(lists, names, n - 1, shard);
      KeptIsNamed(lists[n - 1], names[n - 1], shard);
      if kind(names[n - 1]) {
        forall k | 0 <= k < |before|
          ensures kind(before[k].testCaseName)
        {
          KindBefore(names, n - 1, before[k].testCaseName, kind);
        }
      }
      MoreInOrder(before, last, names[n - 1], kind);
    }
  }

  ghost predicate Part(list: seq<TestInfo>, all: seq<TestInfo>, start: nat, end: nat) {
    start <= end <= |all| && all[start..end] == list
  }

  /** Running the lists where they stand among all tests keeps the order of all tests. */
  lemma {:induction false} ExecutedUnshuffled(lists: seq<seq<TestInfo>>, all: seq<TestInfo>, starts: seq<nat>,
                                              shard: seq<TestInfo>, i: nat)
    requires |starts| == |lists| + 1 && starts[0] == 0 && i <= |lists|
    requires forall k | 0 <= k < |lists| :: Part(lists[k], all, starts[k], starts[k + 1])
    ensures starts[i] <= |all| && Executed(lists, i, shard) == Kept(all[..starts[i]], shard)
  {
    if i > 0 {
      ExecutedUnshuffled(lists, all, starts, shard, i - 1);
      assert Part(lists[i - 1], all, starts[i - 1], starts[i]);
      assert all[..starts[i]] == all[..starts[i - 1]] + lists[i - 1];
      KeptJoins(all[..starts[i - 1]], lists[i - 1], shard);
    }
  }

  /** Every test of the shard is executed once and nothing else is, with death tests first. */
  ghost predicate RunsOnce(ran: seq<TestInfo>, shard: seq<TestInfo>) {
    NoDuplicates(ran) && Within(ran, shard) && Within(shard, ran) && DeathTestsFirst(ran)
  }
}
