/** Dealing the runnable tests out to the shards. */
module Sharding {
  import opened Vectors

  /** `ShouldRunTestOnShard` */
  predicate ShouldRunTestOnShard(totalShards: nat, shardIndex: nat, testId: nat)
    requires shardIndex < totalShards
  {
    testId % totalShards == shardIndex
  }

  /** Whose turn it is when `n` tests have been dealt to the shards in turn. */
  function Turn(n: nat, total: nat): (shard: nat)
    requires total > 0
    ensures shard < total
  {
    if n == 0 then 0
    else
      var last := Turn(n - 1, total);
      if last + 1 < total then last + 1 else 0
  }

  /** The test numbers a shard runs are those dealt to it. */
  lemma {:induction false} TurnIsRemainder(n: nat, total: nat)
    requires total > 0
    ensures Turn(n, total) == n % total
    ensures forall shard | 0 <= shard < total :: ShouldRunTestOnShard(total, shard, n) <==> Turn(n, total) == shard
    decreases n
  {
    if n == 0 {
      DivisionIsUnique(0, total, 0, 0);
    } else {
      TurnIsRemainder(n - 1, total);
      NextNumber(n - 1, total);
    }
  }

  /** What one shard gets of a sequence whose elements are numbered from 0. */
  function Dealt<T>(s: seq<T>, total: nat, shard: nat): (part: seq<T>)
    requires shard < total
    ensures |part| <= |s|
  {
    if s == [] then []
    else
      var n := |s| - 1;
      Dealt(s[..n], total, shard) + if Turn(n, total) == shard then [s[n]] else []
  }

  lemma {:induction false} DealtGrows<T>(s: seq<T>, x: T, grows: bool, more: seq<T>, total: nat, shard: nat)
    requires shard < total && more == s + if grows then [x] else []
    ensures Dealt(more, total, shard)
         == Dealt(s, total, shard) + if grows && Turn(|s|, total) == shard then [x] else []
  {
    if grows {
      assert more[..|s|] == s;
    } else {
      assert more == s;
    }
  }

  // ----- Arithmetic -----

  lemma {:induction false} MultipleIsFar(p: int, total: nat)
    ensures p >= 1 ==> p * total >= total
    ensures p <= -1 ==> p * total <= -(total as int)
  {
  }

  lemma {:induction false} DivisionIsUnique(n: nat, total: nat, q: int, r: int)
    requires 0 <= r < total && n == q * total + r
    ensures n / total == q && n % total == r
  {
    var p := n / total - q;
    assert p * total == r - n % total;
    MultipleIsFar(p, total);
  }

  lemma {:induction false} NextNumber(n: nat, total: nat)
    requires total > 0
    ensures n % total < total - 1 ==> (n + 1) / total == n / total && (n + 1) % total == n % total + 1
    ensures n % total == total - 1 ==> (n + 1) / total == n / total + 1 && (n + 1) % total == 0
  {
    if n % total < total - 1 {
      DivisionIsUnique(n + 1, total, n / total, n % total + 1);
    } else {
      DivisionIsUnique(n + 1, total, n / total + 1, 0);
    }
  }

  // ----- Where each element goes -----

  /** The size of a shard: an equal share, and one more for the first `|s| % total` shards. */
  lemma {:induction false} DealtSize<T>(s: seq<T>, total: nat, shard: nat)
    requires shard < total
    ensures |Dealt(s, total, shard)| == |s| / total + if shard < |s| % total then 1 else 0
    decreases |s|
  {
    if s == [] {
      DivisionIsUnique(0, total, 0, 0);
    } else {
      var n := |s| - 1;
      DealtSize(s[..n], total, shard);
      TurnIsRemainder(n, total);
      NextNumber(n, total);
    }
  }

  /** No shard has more than one test more than another. */
  lemma {:induction false} ShardsAreBalanced<T>(s: seq<T>, total: nat, i: nat, j: nat)
    requires i < total && j < total
    ensures |Dealt(s, total, i)| <= |Dealt(s, total, j)| + 1
  {
    DealtSize(s, total, i);
    DealtSize(s, total, j);
  }

  /** The k-th element is dealt to shard `k % total`, and to no other shard. */
  lemma {:induction false} EachOnOneShard<T>(s: seq<T>, total: nat, shard: nat, k: nat)
    requires NoDuplicates(s) && k < |s| && shard < total
    ensures s[k] in Dealt(s, total, shard) <==> shard == k % total
    decreases |s|
  {
    var n := |s| - 1;
    DealtFrom(s[..n], total, shard);
    TurnIsRemainder(n, total);
    if k < n {
      EachOnOneShard(s[..n], total, shard, k);
      assert s[..n][k] == s[k] != s[n];
    } else {
      assert s[n] !in s[..n];
    }
  }

  lemma {:induction false} DealtFrom<T>(s: seq<T>, total: nat, shard: nat)
    requires shard < total
    ensures forall x | x in Dealt(s, total, shard) :: x in s
    decreases |s|
  {
    if s != [] {
      DealtFrom(s[..|s| - 1], total, shard);
    }
  }

  /** What all the shards get. */
  function Shares<T>(s: seq<T>, total: nat): (parts: seq<seq<T>>)
    ensures |parts| == total
    ensures forall i | 0 <= i < total :: parts[i] == Dealt(s, total, i)
  {
    seq(total, i requires 0 <= i < total => Dealt(s, total, i))
  }

  ghost function Together<T>(parts: seq<seq<T>>): multiset<T> {
    if parts == [] then multiset{} else multiset(parts[0]) + Together(parts[1..])
  }

  function TotalSize<T>(parts: seq<seq<T>>): (n: nat)
    ensures n == |Together(parts)|
  {
    if parts == [] then 0 else |parts[0]| + TotalSize(parts[1..])
  }

  lemma {:induction false} TogetherOfNone<T>(parts: seq<seq<T>>)
    requires forall i | 0 <= i < |parts| :: parts[i] == []
    ensures Together(parts) == multiset{}
    decreases |parts|
  {
    if parts != [] {
      TogetherOfNone(parts[1..]);
    }
  }

  /** If exactly part `r` grows, and by one `y`, then the parts together have one `y` more. */
  lemma {:induction false} TogetherGrows<T>(small: seq<seq<T>>, large: seq<seq<T>>, r: nat, y: T)
    requires |small| == |large|
    requires forall i | 0 <= i < |small| :: multiset(large[i])[y] == multiset(small[i])[y] + if i == r then 1 else 0
    ensures Together(large)[y] == Together(small)[y] + if r < |small| then 1 else 0
    decreases |small|
  {
    if small != [] {
      // Past the part that grows, an index out of range stands for "none".
      TogetherGrows(small[1..], large[1..], if r == 0 then |small| else r - 1, y);
    }
  }

  lemma {:induction false} DealtStep<T>(s: seq<T>, total: nat, shard: nat, y: T)
    requires s != [] && shard < total
    ensures var n := |s| - 1;
            multiset(Dealt(s, total, shard))[y]
            == multiset(Dealt(s[..n], total, shard))[y] + if Turn(n, total) == shard && s[n] == y then 1 else 0
  {
  }

  lemma {:induction false} SharesStep<T>(s: seq<T>, total: nat, y: T)
    requires s != [] && total > 0
    ensures var n := |s| - 1;
            Together(Shares(s, total))[y] == Together(Shares(s[..n], total))[y] + if s[n] == y then 1 else 0
  {
    var n := |s| - 1;
    var large, small := Shares(s, total), Shares(s[..n], total);
    forall i | 0 <= i < total
      ensures multiset(large[i])[y] == multiset(small[i])[y] + if Turn(n, total) == i && s[n] == y then 1 else 0
    {
      DealtStep(s, total, i, y);
    }
    TogetherGrows(small, large, if s[n] == y then Turn(n, total) else total, y);
  }

  lemma {:induction false} SharesCount<T>(s: seq<T>, total: nat, y: T)
    requires total > 0
    ensures Together(Shares(s, total))[y] == multiset(s)[y]
    decreases |s|
  {
    if s == [] {
      TogetherOfNone(Shares(s, total));
    } else {
      SharesStep(s, total, y);
      SharesCount(s[..|s| - 1], total, y);
      SplitLast(s);
    }
  }

  /** Over all shards every test is run once: nothing is lost and nothing is run twice. */
  lemma {:induction false} ShardsPartition<T>(s: seq<T>, total: nat)
    requires total > 0
    ensures Together(Shares(s, total)) == multiset(s)
    ensures TotalSize(Shares(s, total)) == |s|
  {
    var all := Together(Shares(s, total));
    forall y | y in all || y in multiset(s)
      ensures all[y] == multiset(s)[y]
    {
      SharesCount(s, total, y);
    }
    SameCounts(all, multiset(s));
  }

  /** Without sharding there is one shard, which gets everything. */
  lemma {:induction false} OneShard<T>(s: seq<T>)
    ensures Dealt(s, 1, 0) == s
    decreases |s|
  {
    if s != [] {
      OneShard(s[..|s| - 1]);
      SplitLast(s);
    }
  }
}
