/** Growable vectors, and what the sequences in them may look like. */
module Vectors {

  function Swapped<T>(s: seq<T>, i: nat, j: nat): (t: seq<T>)
    requires i < |s| && j < |s|
    ensures |t| == |s|
  {
    s[i := s[j]][j := s[i]]
  }

  class Vector<T> {
    var items: seq<T>

    constructor ()
      ensures items == []
    {
      items := [];
    }

    method PushBack(x: T)
      modifies this
      ensures items == old(items) + [x]
    {
      items := items + [x];
    }

    method Swap(i: nat, j: nat)
      requires i < |items| && j < |items|
      modifies this
      ensures items == Swapped(old(items), i, j)
    {
      items := items[i := items[j]][j := items[i]];
    }
  }

  ghost predicate NoDuplicates<T>(s: seq<T>) {
    forall i, j | 0 <= i < j < |s| :: s[i] != s[j]
  }

  /** The first `n` parts, joined. */
  function Joined<T>(parts: seq<seq<T>>, n: nat): seq<T>
    requires n <= |parts|
  {
    if n == 0 then [] else Joined(parts, n - 1) + parts[n - 1]
  }

  lemma {:induction false} JoinedNothing<T>(parts: seq<seq<T>>)
    ensures Joined(parts, 0) == []
  {
  }

  lemma {:induction false} JoinedStep<T>(parts: seq<seq<T>>, n: nat)
    requires n < |parts|
    ensures Joined(parts, n + 1) == Joined(parts, n) + parts[n]
  {
  }

  /** Every element of `s` is one of `t`. */
  ghost predicate Within<T>(s: seq<T>, t: seq<T>) {
    forall k | 0 <= k < |s| :: s[k] in t
  }

  lemma {:induction false} SplitLast<T>(s: seq<T>)
    requires s != []
    ensures s == s[..|s| - 1] + [s[|s| - 1]]
    ensures multiset(s) == multiset(s[..|s| - 1]) + multiset{s[|s| - 1]}
  {
    assert s == s[..|s| - 1] + [s[|s| - 1]];
  }

  lemma {:induction false} SameCounts<T>(a: multiset<T>, b: multiset<T>)
    requires forall x | x in a || x in b :: a[x] == b[x]
    ensures a == b
  {
    assert forall x | x in a :: a[x] == b[x];
    assert forall x | x in b :: a[x] == b[x];
  }

  lemma {:induction false} SwapPermutes<T>(s: seq<T>, i: nat, j: nat)
    requires i < |s| && j < |s|
    ensures multiset(Swapped(s, i, j)) == multiset(s)
  {
  }

  /** Being free of duplicates does not depend on the order. */
  lemma {:induction false} NoDuplicatesCounts<T>(s: seq<T>)
    ensures NoDuplicates(s) <==> forall x | x in s :: multiset(s)[x] == 1
    decreases |s|
  {
    if s != [] {
      var n := |s| - 1;
      var a, x := s[..n], s[n];
      SplitLast(s);
      NoDuplicatesCounts(a);
      if NoDuplicates(s) {
        assert NoDuplicates(a);
        assert x !in a;
        assert x !in multiset(a);
      } else if NoDuplicates(a) {
        assert x in a by {
          var i, j :| 0 <= i < j < |s| && s[i] == s[j];
          assert s[i] == a[i];
        }
        assert x in s && x in multiset(a) && multiset(s)[x] >= 2;
      } else {
        var y :| y in a && multiset(a)[y] != 1;
        assert y in s && y in multiset(a) && multiset(s)[y] >= multiset(a)[y] > 1;
      }
    }
  }

  lemma {:induction false} SameElements<T>(s: seq<T>, t: seq<T>)
    requires multiset(s) == multiset(t)
    ensures |s| == |t| && NoDuplicates(s) == NoDuplicates(t)
    ensures Within(s, t) && Within(t, s)
  {
    assert |multiset(s)| == |s| && |multiset(t)| == |t|;
    NoDuplicatesCounts(s);
    NoDuplicatesCounts(t);
    forall k | 0 <= k < |s|
      ensures s[k] in t
    {
      assert s[k] in multiset(t);
    }
    forall k | 0 <= k < |t|
      ensures t[k] in s
    {
      assert t[k] in multiset(s);
    }
  }

  lemma {:induction false} JoinDistinct<T>(a: seq<T>, b: seq<T>)
    requires NoDuplicates(a) && NoDuplicates(b) && forall k | 0 <= k < |b| :: b[k] !in a
    ensures NoDuplicates(a + b)
  {
    forall i, j | 0 <= i < j < |a + b|
      ensures (a + b)[i] != (a + b)[j]
    {
      if i < |a| <= j {
        assert a[i] in a;
      }
    }
  }
}
