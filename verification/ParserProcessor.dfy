/** The walk over a parsed configuration that collects the values of a key. */
module ParserProcessor {
  import opened ConfigSyntax
  import opened ConfigParser
  import opened Vectors

  // ----- Which tokens are values of a key -----

  /** The tokens of a block's own statements, in order. Child blocks have streams of their own. */
  function Stream(block: seq<Statement>): seq<string> {
    if block == [] then [] else block[0].tokens + Stream(block[1..])
  }

  /** The tokens at positions `lo..hi` of a stream that directly follow an occurrence of the key. */
  function Followers(stream: seq<string>, lo: nat, hi: nat, key: string): seq<string>
    requires hi <= |stream|
  {
    if hi <= lo then []
    else Followers(stream, lo, hi - 1, key) + if hi >= 2 && stream[hi - 2] == key then [stream[hi - 1]] else []
  }

  function ChildValues(s: Statement, key: string): seq<string>
    decreases s
  {
    if s.Block? then Values(s.body, key) else []
  }

  /** The n-th statement contributes the followers among its own tokens. */
  function OwnValues(block: seq<Statement>, n: nat, key: string): seq<string>
    requires n < |block|
  {
    StreamAt(block, n);
    Followers(Stream(block), |Stream(block[..n])|, |Stream(block[..n + 1])|, key)
  }

  /** The values of the first `n` statements: each contributes its own, then those of its child. */
  function ValuesUpTo(block: seq<Statement>, n: nat, key: string): seq<string>
    requires n <= |block|
    decreases block, n
  {
    if n == 0 then []
    else ValuesUpTo(block, n - 1, key) + (OwnValues(block, n - 1, key) + ChildValues(block[n - 1], key))
  }

  function Values(block: seq<Statement>, key: string): seq<string>
    decreases block, |block| + 1
  {
    ValuesUpTo(block, |block|, key)
  }

  lemma {:induction false} StreamPrefix(block: seq<Statement>, n: nat)
    requires n <= |block|
    ensures Stream(block) == Stream(block[..n]) + Stream(block[n..])
    decreases n
  {
    if n == 0 {
      assert block[0..] == block;
    } else {
      assert block[..n][1..] == block[1..][..n - 1];
      assert block[n..] == block[1..][n - 1..];
      StreamPrefix(block[1..], n - 1);
    }
  }

  /** The tokens of the n-th statement sit in the stream right after those of the statements before it. */
  lemma {:induction false} StreamAt(block: seq<Statement>, n: nat)
    requires n < |block|
    ensures |Stream(block[..n + 1])| == |Stream(block[..n])| + |block[n].tokens| <= |Stream(block)|
    ensures Stream(block)[|Stream(block[..n])|..|Stream(block[..n + 1])|] == block[n].tokens
  {
    StreamPrefix(block, n);
    StreamPrefix(block, n + 1);
    StreamPrefix(block[..n + 1], n);
    assert block[..n + 1][..n] == block[..n];
    assert block[..n + 1][n..] == [block[n]];
    assert Stream([block[n]]) == block[n].tokens + Stream([]);
    assert block[n..][0] == block[n];
  }

  // ----- The walk -----

  lemma {:induction false} ValuesStart(t: seq<Statement>, key: string, items: seq<string>)
    ensures |Stream(t[..0])| == 0 && !Pending(Stream(t), 0, key)
    ensures items + ValuesUpTo(t, 0, key) == items
  {
    assert t[..0] == [];
  }

  lemma {:induction false} ValuesStep(t: seq<Statement>, i: nat, key: string, items: seq<string>)
    requires i < |t|
    ensures items + ValuesUpTo(t, i + 1, key)
         == items + ValuesUpTo(t, i, key) + (OwnValues(t, i, key) + ChildValues(t[i], key))
  {
    AppendTwice(items, ValuesUpTo(t, i, key), OwnValues(t, i, key) + ChildValues(t[i], key));
  }

  lemma {:induction false} StatementOf(statements: seq<NginxConfigStatement>, t: seq<Statement>, repr: set<object>)
    requires RepBlock(statements, t, repr)
    ensures |statements| == |t| && forall i | 0 <= i < |t| :: RepStatement(statements[i], t[i], repr)
  {
  }

  /** `values_for_key`: the recursion has a flag of its own, so a child block never sees or sets its parent's. */
  method ValuesForKey(statements: seq<NginxConfigStatement>, key: string, results: Vector<string>,
                      ghost t: seq<Statement>, ghost repr: set<object>)
    requires RepBlock(statements, t, repr) && results !in repr
    modifies results
    ensures results.items == old(results.items) + Values(t, key)
    decreases t, 1
  {
    hide Stream, ValuesUpTo, OwnValues, ChildValues, Pending, RepBlock, RepStatement;
    var nextTokenKeyValue := false;
    var i := 0;
    ValuesStart(t, key, results.items);
    StatementOf(statements, t, repr);
    while i < |statements|
      invariant 0 <= i <= |t| && RepBlock(statements, t, repr)
      invariant |Stream(t[..i])| <= |Stream(t)| && nextTokenKeyValue == Pending(Stream(t), |Stream(t[..i])|, key)
      invariant results.items == old(results.items) + ValuesUpTo(t, i, key)
    {
      StatementOf(statements, t, repr);
      StreamAt(t, i);
      ValuesStep(t, i, key, old(results.items));
      nextTokenKeyValue := VisitStatement(statements[i], key, results, nextTokenKeyValue, t, i, repr);
      i := i + 1;
    }
  }

  /** The body of the loop over statements: the statement's tokens, then its child block. */
  method VisitStatement(statement: NginxConfigStatement, key: string, results: Vector<string>, flag0: bool,
                        ghost t: seq<Statement>, ghost i: nat, ghost repr: set<object>)
    returns (flag: bool)
    requires i < |t| && RepStatement(statement, t[i], repr) && results !in repr
    requires |Stream(t[..i])| <= |Stream(t)| && flag0 == Pending(Stream(t), |Stream(t[..i])|, key)
    modifies results
    ensures |Stream(t[..i + 1])| <= |Stream(t)| && flag == Pending(Stream(t), |Stream(t[..i + 1])|, key)
    ensures results.items == old(results.items) + (OwnValues(t, i, key) + ChildValues(t[i], key))
    decreases t, 0
  {
    flag := ScanOwn(statement, key, results, flag0, t, i);
    VisitChild(statement, key, results, t[i], repr);
    AppendTwice(old(results.items), OwnValues(t, i, key), ChildValues(t[i], key));
  }

  method ScanOwn(statement: NginxConfigStatement, key: string, results: Vector<string>, flag0: bool,
                 ghost t: seq<Statement>, ghost i: nat)
    returns (flag: bool)
    requires i < |t| && statement.tokens == t[i].tokens
    requires |Stream(t[..i])| <= |Stream(t)| && flag0 == Pending(Stream(t), |Stream(t[..i])|, key)
    modifies results
    ensures |Stream(t[..i + 1])| <= |Stream(t)| && flag == Pending(Stream(t), |Stream(t[..i + 1])|, key)
    ensures results.items == old(results.items) + OwnValues(t, i, key)
  {
    StreamAt(t, i);
    flag := ScanTokens(statement, key, results, flag0, Stream(t), |Stream(t[..i])|);
  }

  /** The recursion of `values_for_key` into a child block, if there is one. */
  method VisitChild(statement: NginxConfigStatement, key: string, results: Vector<string>,
                    ghost s: Statement, ghost repr: set<object>)
    requires RepStatement(statement, s, repr) && results !in repr
    modifies results
    ensures results.items == old(results.items) + ChildValues(s, key)
    decreases s
  {
    if statement.childBlock != null {
      ValuesForKey(statement.childBlock.statements, key, results, s.body, repr);
    }
  }

  lemma {:induction false} AppendTwice(a: seq<string>, b: seq<string>, c: seq<string>)
    ensures a + b + c == a + (b + c)
  {
  }

  /** Whether the token before position `p` is the key: what the flag of the walk means. */
  predicate Pending(stream: seq<string>, p: nat, key: string)
    requires p <= |stream|
  {
    p > 0 && stream[p - 1] == key
  }

  lemma {:induction false} NoFollowers(stream: seq<string>, from: nat, key: string, items: seq<string>)
    requires from <= |stream|
    ensures items + Followers(stream, from, from, key) == items
  {
  }

  lemma {:induction false} FollowersStep(stream: seq<string>, from: nat, p: nat, key: string, items: seq<string>)
    requires from <= p < |stream|
    ensures items + Followers(stream, from, p + 1, key)
         == if Pending(stream, p, key) then items + Followers(stream, from, p, key) + [stream[p]]
            else items + Followers(stream, from, p, key)
    ensures Pending(stream, p + 1, key) <==> stream[p] == key
  {
    assert items + Followers(stream, from, p, key) + [stream[p]] == items + (Followers(stream, from, p, key) + [stream[p]]);
  }

  /** The inner loop of `values_for_key`, over the tokens of one statement. */
  method ScanTokens(statement: NginxConfigStatement, key: string, results: Vector<string>, flag0: bool,
                    ghost stream: seq<string>, ghost from: nat)
    returns (flag: bool)
    requires from + |statement.tokens| <= |stream| && stream[from..from + |statement.tokens|] == statement.tokens
    requires flag0 == Pending(stream, from, key)
    modifies results
    ensures flag == Pending(stream, from + |statement.tokens|, key)
    ensures results.items == old(results.items) + Followers(stream, from, from + |statement.tokens|, key)
  {
    hide *;
    flag := flag0;
    var j := 0;
    NoFollowers(stream, from, key, results.items);
    while j < |statement.tokens|
      invariant 0 <= j <= |statement.tokens|
      invariant flag == Pending(stream, from + j, key)
      invariant results.items == old(results.items) + Followers(stream, from, from + j, key)
    {
      var token := statement.tokens[j];
      FollowersStep(stream, from, from + j, key, old(results.items));
      assert stream[from..from + |statement.tokens|][j] == stream[from + j];
      if flag {
        results.PushBack(token);
        flag := false;
      }
      if token == key {
        flag := true;
      }
      j := j + 1;
    }
  }

  /** `value_for_key`: the program indexes an empty vector when there is no value, so one must exist. */
  method ValueForKey(statements: seq<NginxConfigStatement>, key: string, ghost t: seq<Statement>, ghost repr: set<object>)
    returns (value: string)
    requires RepBlock(statements, t, repr) && KeyUses(t, key) > 0
    ensures Values(t, key) != [] && value == Values(t, key)[0] && FollowsKey(t, key, value)
  {
    ValuesAreCounted(t, key);
    var results := new Vector<string>();
    ValuesForKey(statements, key, results, t, repr);
    value := results.items[0];
    ValuesIff(t, key, value);
  }

  // ----- What the walk returns -----

  function Occurrences(stream: seq<string>, n: nat, key: string): nat
    requires n <= |stream|
  {
    if n == 0 then 0 else Occurrences(stream, n - 1, key) + if stream[n - 1] == key then 1 else 0
  }

  /** Occurrences of the key that are not last in their block's stream, over this block and all blocks inside it. */
  function KeyUses(block: seq<Statement>, key: string): nat
    decreases block, 1
  {
    var stream := Stream(block);
    (if stream == [] then 0 else Occurrences(stream, |stream| - 1, key)) + ChildUses(block, key)
  }

  function ChildUses(block: seq<Statement>, key: string): nat
    decreases block, 0
  {
    if block == [] then 0
    else (if block[0].Block? then KeyUses(block[0].body, key) else 0) + ChildUses(block[1..], key)
  }

  lemma {:induction false} FollowersSplit(stream: seq<string>, lo: nat, mid: nat, hi: nat, key: string)
    requires lo <= mid <= hi <= |stream|
    ensures Followers(stream, lo, hi, key) == Followers(stream, lo, mid, key) + Followers(stream, mid, hi, key)
    decreases hi
  {
    if mid < hi {
      FollowersSplit(stream, lo, mid, hi - 1, key);
    }
  }

  lemma {:induction false} FollowersAreCounted(stream: seq<string>, n: nat, key: string)
    requires n <= |stream|
    ensures |Followers(stream, 0, n, key)| == if n == 0 then 0 else Occurrences(stream, n - 1, key)
    decreases n
  {
    if n > 0 {
      FollowersAreCounted(stream, n - 1, key);
    }
  }

  lemma {:induction false} ChildUsesSnoc(block: seq<Statement>, n: nat, key: string)
    requires n < |block|
    ensures ChildUses(block[..n + 1], key)
         == ChildUses(block[..n], key) + if block[n].Block? then KeyUses(block[n].body, key) else 0
    decreases n
  {
    assert block[..n + 1][1..] == block[1..][..n];
    if n > 0 {
      assert block[..n][1..] == block[1..][..n - 1];
      ChildUsesSnoc(block[1..], n - 1, key);
    } else {
      assert ChildUses(block[..1][1..], key) == 0;
    }
  }

  lemma {:induction false} PrefixIsCounted(block: seq<Statement>, n: nat, key: string)
    requires n <= |block|
    ensures |Stream(block[..n])| <= |Stream(block)|
    ensures |ValuesUpTo(block, n, key)|
         == |Followers(Stream(block), 0, |Stream(block[..n])|, key)| + ChildUses(block[..n], key)
    decreases block, n
  {
    StreamPrefix(block, n);
    if n > 0 {
      PrefixIsCounted(block, n - 1, key);
      StreamAt(block, n - 1);
      FollowersSplit(Stream(block), 0, |Stream(block[..n - 1])|, |Stream(block[..n])|, key);
      ChildUsesSnoc(block, n - 1, key);
      if block[n - 1].Block? {
        ValuesAreCounted(block[n - 1].body, key);
      }
    }
  }

  /** The walk returns one value for each use of the key, no more and no fewer. */
  lemma {:induction false} ValuesAreCounted(block: seq<Statement>, key: string)
    ensures |Values(block, key)| == KeyUses(block, key)
    decreases block, |block| + 1
  {
    PrefixIsCounted(block, |block|, key);
    assert block[..|block|] == block;
    FollowersAreCounted(Stream(block), |Stream(block)|, key);
  }

  // ----- What the values are -----

  /** The token at position `q` comes directly after the key. */
  predicate AfterKey(stream: seq<string>, q: nat, key: string) {
    0 < q < |stream| && stream[q - 1] == key
  }

  ghost predicate Increasing(qs: seq<nat>) {
    forall i, j | 0 <= i < j < |qs| :: qs[i] < qs[j]
  }

  /** `qs` are all the positions from `lo` up to `hi` that come directly after the key, in order. */
  ghost predicate AllAfterKey(stream: seq<string>, lo: nat, hi: nat, key: string, qs: seq<nat>) {
    && Increasing(qs)
    && (forall k | 0 <= k < |qs| :: lo <= qs[k] < hi && AfterKey(stream, qs[k], key))
    && (forall q: nat | lo <= q < hi && AfterKey(stream, q, key) :: q in qs)
  }

  /** The tokens at these positions. */
  function TokensAt(stream: seq<string>, qs: seq<nat>): (vs: seq<string>)
    requires forall k | 0 <= k < |qs| :: qs[k] < |stream|
    ensures |vs| == |qs| && forall k | 0 <= k < |qs| :: vs[k] == stream[qs[k]]
  {
    seq(|qs|, k requires 0 <= k < |qs| => stream[qs[k]])
  }

  /** `vs` are the tokens from `lo` up to `hi` that come directly after the key, in order. */
  ghost predicate AreFollowers(stream: seq<string>, lo: nat, hi: nat, key: string, vs: seq<string>) {
    exists qs :: AllAfterKey(stream, lo, hi, key, qs) && vs == TokensAt(stream, qs)
  }

  lemma {:induction false} AllAfterKeyGrows(stream: seq<string>, lo: nat, hi: nat, key: string, qs: seq<nat>)
    returns (more: seq<nat>)
    requires lo <= hi && AllAfterKey(stream, lo, hi, key, qs)
    ensures more == if AfterKey(stream, hi, key) then qs + [hi] else qs
    ensures AllAfterKey(stream, lo, hi + 1, key, more)
  {
    hide AfterKey;
    more := if AfterKey(stream, hi, key) then qs + [hi] else qs;
    forall q: nat | lo <= q <= hi && AfterKey(stream, q, key)
      ensures q in more
    {
      if q < hi {
        assert q in qs;
      } else if AfterKey(stream, hi, key) {
        assert more[|qs|] == q;
      }
    }
  }

  lemma {:induction false} FollowersAreAt(stream: seq<string>, lo: nat, hi: nat, key: string) returns (qs: seq<nat>)
    requires hi <= |stream|
    ensures AllAfterKey(stream, lo, hi, key, qs) && Followers(stream, lo, hi, key) == TokensAt(stream, qs)
    decreases hi
  {
    if hi <= lo {
      qs := [];
    } else {
      var before := FollowersAreAt(stream, lo, hi - 1, key);
      qs := AllAfterKeyGrows(stream, lo, hi - 1, key, before);
      assert TokensAt(stream, before + [hi - 1]) == TokensAt(stream, before) + [stream[hi - 1]];
      assert AfterKey(stream, hi - 1, key) <==> hi >= 2 && stream[hi - 2] == key;
    }
  }

  lemma {:induction false} FollowersAre(stream: seq<string>, lo: nat, hi: nat, key: string)
    requires hi <= |stream|
    ensures AreFollowers(stream, lo, hi, key, Followers(stream, lo, hi, key))
  {
    var qs := FollowersAreAt(stream, lo, hi, key);
  }

  ghost predicate SameMembers(a: seq<nat>, b: seq<nat>) {
    forall q :: q in a <==> q in b
  }

  lemma {:induction false} InLast(a: seq<nat>, q: nat)
    requires Increasing(a) && q in a
    ensures a != [] && q <= a[|a| - 1] && a[|a| - 1] in a
  {
  }

  lemma {:induction false} InFront(a: seq<nat>, q: nat)
    requires Increasing(a) && a != []
    ensures q in a[..|a| - 1] <==> q in a && q < a[|a| - 1]
  {
  }

  lemma {:induction false} FrontIncreasing(a: seq<nat>)
    requires Increasing(a) && a != []
    ensures Increasing(a[..|a| - 1]) && a == a[..|a| - 1] + [a[|a| - 1]]
  {
  }

  lemma {:induction false} SameLast(a: seq<nat>, b: seq<nat>)
    requires Increasing(a) && Increasing(b) && SameMembers(a, b) && a != []
    ensures b != [] && a[|a| - 1] == b[|b| - 1]
  {
    hide Increasing;
    InLast(a, a[|a| - 1]);
    InLast(b, a[|a| - 1]);
    InLast(a, b[|b| - 1]);
  }

  lemma {:induction false} SameFront(a: seq<nat>, b: seq<nat>)
    requires Increasing(a) && Increasing(b) && SameMembers(a, b) && a != []
    requires b != [] && a[|a| - 1] == b[|b| - 1]
    ensures SameMembers(a[..|a| - 1], b[..|b| - 1])
  {
    hide Increasing;
    var aFront, bFront := a[..|a| - 1], b[..|b| - 1];
    forall q
      ensures q in aFront <==> q in bFront
    {
      InFront(a, q);
      InFront(b, q);
    }
  }

  lemma {:induction false} SameIncreasing(a: seq<nat>, b: seq<nat>)
    requires Increasing(a) && Increasing(b) && SameMembers(a, b)
    ensures a == b
    decreases |a|
  {
    assert SameMembers(b, a);
    hide *;
    if a != [] {
      SameLast(a, b);
      SameFront(a, b);
      FrontIncreasing(a);
      FrontIncreasing(b);
      SameIncreasing(a[..|a| - 1], b[..|b| - 1]);
    } else if b != [] {
      SameLast(b, a);
    }
  }

  /** There is only one such sequence of tokens. */
  lemma {:induction false} OneSequence(stream: seq<string>, lo: nat, hi: nat, key: string, vs: seq<string>, us: seq<string>)
    requires AreFollowers(stream, lo, hi, key, vs) && AreFollowers(stream, lo, hi, key, us)
    ensures vs == us
  {
    var ps :| AllAfterKey(stream, lo, hi, key, ps) && vs == TokensAt(stream, ps);
    var qs :| AllAfterKey(stream, lo, hi, key, qs) && us == TokensAt(stream, qs);
    SameIncreasing(ps, qs);
  }

  /** The values of the statements' own streams, given by `own`, each followed by those of its child block. */
  function Interleaved(block: seq<Statement>, own: seq<seq<string>>, n: nat, key: string): seq<string>
    requires n <= |block| == |own|
  {
    if n == 0 then []
    else Interleaved(block, own, n - 1, key) + (own[n - 1] + if block[n - 1].Block? then Values(block[n - 1].body, key) else [])
  }

  lemma {:induction false} ValuesInterleave(block: seq<Statement>, own: seq<seq<string>>, n: nat, key: string)
    requires n <= |block| == |own| && forall i | 0 <= i < |block| :: own[i] == OwnValues(block, i, key)
    ensures ValuesUpTo(block, n, key) == Interleaved(block, own, n, key)
    ensures |Stream(block[..n])| <= |Stream(block)|
    ensures Joined(own, n) == Followers(Stream(block), 0, |Stream(block[..n])|, key)
    decreases n
  {
    StreamPrefix(block, n);
    if n > 0 {
      ValuesInterleave(block, own, n - 1, key);
      StreamAt(block, n - 1);
      FollowersSplit(Stream(block), 0, |Stream(block[..n - 1])|, |Stream(block[..n])|, key);
    }
  }

  /** What the first `n` statements contribute, without their child blocks. */
  ghost predicate OwnParts(block: seq<Statement>, own: seq<seq<string>>, n: nat, key: string)
    requires n <= |block| == |own|
  {
    AreFollowers(Stream(block), 0, |Stream(block[..n])|, key, Joined(own, n))
  }

  lemma {:induction false} OwnValuesParts(block: seq<Statement>, own: seq<seq<string>>, n: nat, key: string)
    requires n <= |block| == |own| && forall i | 0 <= i < |block| :: own[i] == OwnValues(block, i, key)
    ensures OwnParts(block, own, n, key)
  {
    ValuesInterleave(block, own, n, key);
    FollowersAre(Stream(block), 0, |Stream(block[..n])|, key);
  }

  /**
   * What the walk returns: without the values of the child blocks, exactly the tokens that come after the key in the
   * block's own stream, in order; those among the tokens of the first `n` statements stand before the values of any
   * later child.
   */
  lemma {:induction false} ValuesAre(block: seq<Statement>, key: string) returns (own: seq<seq<string>>)
    ensures |own| == |block| && Values(block, key) == Interleaved(block, own, |block|, key)
    ensures forall n | 0 <= n <= |block| :: OwnParts(block, own, n, key)
    ensures AreFollowers(Stream(block), 0, |Stream(block)|, key, Joined(own, |block|))
  {
    own := seq(|block|, i requires 0 <= i < |block| => OwnValues(block, i, key));
    ValuesInterleave(block, own, |block|, key);
    forall n | 0 <= n <= |block|
      ensures OwnParts(block, own, n, key)
    {
      OwnValuesParts(block, own, n, key);
    }
    assert block[..|block|] == block;
    assert OwnParts(block, own, |block|, key);
  }

  /** For a block without child blocks, these are all. */
  lemma {:induction false} ValuesWithoutChildren(block: seq<Statement>, key: string)
    requires forall i | 0 <= i < |block| :: block[i].Simple?
    ensures AreFollowers(Stream(block), 0, |Stream(block)|, key, Values(block, key))
  {
    var own := ValuesAre(block, key);
    NothingBetween(block, own, |block|, key);
  }

  lemma {:induction false} NothingBetween(block: seq<Statement>, own: seq<seq<string>>, n: nat, key: string)
    requires n <= |block| == |own| && forall i | 0 <= i < |block| :: block[i].Simple?
    ensures Interleaved(block, own, n, key) == Joined(own, n)
    decreases n
  {
    if n > 0 {
      NothingBetween(block, own, n - 1, key);
      assert own[n - 1] + [] == own[n - 1];
    }
  }

  /** Some token `v` of the stream comes directly after the key. */
  ghost predicate Follows(stream: seq<string>, key: string, v: string) {
    exists q: nat | q < |stream| :: AfterKey(stream, q, key) && stream[q] == v
  }

  /** The token comes directly after the key in the stream of this block or of one inside it. */
  ghost predicate FollowsKey(block: seq<Statement>, key: string, v: string)
    decreases block
  {
    Follows(Stream(block), key, v) || exists i | 0 <= i < |block| && block[i].Block? :: FollowsKey(block[i].body, key, v)
  }

  lemma {:induction false} OwnFollows(stream: seq<string>, key: string, own: seq<string>, v: string)
    requires AreFollowers(stream, 0, |stream|, key, own)
    ensures v in own <==> Follows(stream, key, v)
  {
    var qs :| AllAfterKey(stream, 0, |stream|, key, qs) && own == TokensAt(stream, qs);
    if v in own {
      var k :| 0 <= k < |own| && own[k] == v;
      assert AfterKey(stream, qs[k], key) && stream[qs[k]] == v;
    }
    if Follows(stream, key, v) {
      var q: nat :| q < |stream| && AfterKey(stream, q, key) && stream[q] == v;
      assert q in qs;
      var k :| 0 <= k < |qs| && qs[k] == q;
      assert own[k] == v;
    }
  }

  ghost predicate InChild(block: seq<Statement>, n: nat, key: string, v: string)
    requires n <= |block|
  {
    exists i | 0 <= i < n && block[i].Block? :: v in Values(block[i].body, key)
  }

  lemma {:induction false} InInterleaved(block: seq<Statement>, own: seq<seq<string>>, n: nat, key: string, v: string)
    requires n <= |block| == |own|
    ensures v in Interleaved(block, own, n, key) <==> v in Joined(own, n) || InChild(block, n, key, v)
    decreases n
  {
    if n > 0 {
      hide Values;
      InInterleaved(block, own, n - 1, key, v);
      var child := if block[n - 1].Block? then Values(block[n - 1].body, key) else [];
      assert v in Interleaved(block, own, n, key)
         <==> v in Interleaved(block, own, n - 1, key) || v in own[n - 1] || v in child;
      assert v in Joined(own, n) <==> v in Joined(own, n - 1) || v in own[n - 1];
      assert InChild(block, n, key, v) <==> InChild(block, n - 1, key, v) || v in child;
    }
  }

  /** Every value comes directly after the key in the stream of some block, and every such token is a value. */
  lemma {:induction false} ValuesIff(block: seq<Statement>, key: string, v: string)
    ensures v in Values(block, key) <==> FollowsKey(block, key, v)
    decreases block
  {
    var own := ValuesAre(block, key);
    InInterleaved(block, own, |block|, key, v);
    OwnFollows(Stream(block), key, Joined(own, |block|), v);
    forall i | 0 <= i < |block| && block[i].Block?
      ensures v in Values(block[i].body, key) <==> FollowsKey(block[i].body, key, v)
    {
      ValuesIff(block[i].body, key, v);
    }
  }

  // ----- Child blocks and the pending flag -----

  lemma {:induction false} SameTokensSameStream(a: seq<Statement>, b: seq<Statement>)
    requires |a| == |b| && forall i | 0 <= i < |a| :: a[i].tokens == b[i].tokens
    ensures Stream(a) == Stream(b)
    decreases |a|
  {
    if a != [] {
      SameTokensSameStream(a[1..], b[1..]);
    }
  }

  lemma {:induction false} SameOwnValues(a: seq<Statement>, b: seq<Statement>, n: nat, key: string)
    requires |a| == |b| && n < |a| && forall i | 0 <= i < |a| :: a[i].tokens == b[i].tokens
    ensures OwnValues(a, n, key) == OwnValues(b, n, key)
  {
    SameTokensSameStream(a, b);
    SameTokensSameStream(a[..n], b[..n]);
    SameTokensSameStream(a[..n + 1], b[..n + 1]);
  }

  /**
   * A child block neither consumes nor sets its parent's pending flag: whatever a child holds, and whether there
   * is one at all, what the walk collects before and after the child's own values is the same.
   */
  lemma {:induction false} ChildrenAreIndependent(a: seq<Statement>, b: seq<Statement>, i: nat, n: nat, key: string)
    returns (before: seq<string>, after: seq<string>)
    requires |a| == |b| && i < n <= |a|
    requires forall j | 0 <= j < |a| :: a[j].tokens == b[j].tokens && (j != i ==> a[j] == b[j])
    ensures ValuesUpTo(a, n, key) == before + ChildValues(a[i], key) + after
    ensures ValuesUpTo(b, n, key) == before + ChildValues(b[i], key) + after
    decreases n
  {
    var own := SameStep(a, b, n, key);
    if n == i + 1 {
      SameValuesBefore(a, b, i, key);
      var start := ValuesUpTo(a, i, key);
      before, after := start + own, [];
      AppendTwice(start, own, ChildValues(a[i], key));
      AppendTwice(start, own, ChildValues(b[i], key));
      assert before + ChildValues(a[i], key) + [] == before + ChildValues(a[i], key);
      assert before + ChildValues(b[i], key) + [] == before + ChildValues(b[i], key);
    } else {
      before, after := ChildrenAreIndependent(a, b, i, n - 1, key);
      var more := own + ChildValues(a[n - 1], key);
      Append(before, ChildValues(a[i], key), after, more);
      Append(before, ChildValues(b[i], key), after, more);
      after := after + more;
    }
  }

  lemma {:induction false} SameStep(a: seq<Statement>, b: seq<Statement>, n: nat, key: string) returns (own: seq<string>)
    requires |a| == |b| && 0 < n <= |a| && forall i | 0 <= i < |a| :: a[i].tokens == b[i].tokens
    ensures ValuesUpTo(a, n, key) == ValuesUpTo(a, n - 1, key) + (own + ChildValues(a[n - 1], key))
    ensures ValuesUpTo(b, n, key) == ValuesUpTo(b, n - 1, key) + (own + ChildValues(b[n - 1], key))
  {
    own := OwnValues(a, n - 1, key);
    SameOwnValues(a, b, n - 1, key);
  }

  lemma {:induction false} Append(a: seq<string>, b: seq<string>, c: seq<string>, d: seq<string>)
    ensures a + b + c + d == a + b + (c + d)
  {
  }

  lemma {:induction false} SameValuesBefore(a: seq<Statement>, b: seq<Statement>, n: nat, key: string)
    requires |a| == |b| && n <= |a| && forall j | 0 <= j < n :: a[j] == b[j]
    requires forall i | 0 <= i < |a| :: a[i].tokens == b[i].tokens
    ensures ValuesUpTo(a, n, key) == ValuesUpTo(b, n, key)
    decreases n
  {
    if n > 0 {
      SameOwnValues(a, b, n - 1, key);
      SameValuesBefore(a, b, n - 1, key);
    }
  }
}
