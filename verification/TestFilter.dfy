/** The test name filters: wildcard patterns, lists of them, and the positive and negative parts of a filter. */
module TestFilter {
  import opened Common
  import opened TextFields

  // ----- What a wildcard pattern means -----

  function Flatten(ws: seq<string>): string {
    if ws == [] then "" else ws[0] + Flatten(ws[1..])
  }

  /** The strings one pattern character stands for. */
  predicate Fits(p: char, w: string) {
    if p == '*' then true else if p == '?' then |w| == 1 else w == [p]
  }

  /** `ws` cuts a string into one piece for each pattern character. */
  predicate Cut(pattern: string, ws: seq<string>) {
    |ws| == |pattern| && forall i | 0 <= i < |ws| :: Fits(pattern[i], ws[i])
  }

  /** The string can be cut into pieces that fit the pattern's characters one by one. */
  ghost predicate Matches(pattern: string, s: string) {
    exists ws :: Cut(pattern, ws) && Flatten(ws) == s
  }

  lemma {:induction false} MatchesEmpty(s: string)
    ensures Matches("", s) <==> s == ""
  {
    assert Cut("", []) && Flatten([]) == "";
  }

  /** A pattern matches exactly when some prefix fits its first character and the rest matches the rest. */
  lemma {:induction false} MatchesCons(pattern: string, s: string)
    requires pattern != ""
    ensures Matches(pattern, s) <==> exists k | 0 <= k <= |s| :: Fits(pattern[0], s[..k]) && Matches(pattern[1..], s[k..])
  {
    if ws :| Cut(pattern, ws) && Flatten(ws) == s {
      var k := |ws[0]|;
      assert s[..k] == ws[0] && s[k..] == Flatten(ws[1..]);
      assert Cut(pattern[1..], ws[1..]);
    }
    if k :| 0 <= k <= |s| && Fits(pattern[0], s[..k]) && Matches(pattern[1..], s[k..]) {
      var ws :| Cut(pattern[1..], ws) && Flatten(ws) == s[k..];
      var all := [s[..k]] + ws;
      assert all[1..] == ws;
      assert Cut(pattern, all) && Flatten(all) == s;
    }
  }

  // ----- Patterns by their text -----

  lemma {:induction false} FlattenOne(w: string)
    ensures Flatten([w]) == w
  {
    assert [w][1..] == [] && w + "" == w;
  }

  /** A question mark is any one character, a star any string, and any other character itself. */
  lemma {:induction false} OneCharacter(c: char, s: string)
    ensures Matches("?", s) <==> |s| == 1
    ensures Matches("*", s)
    ensures c != '?' && c != '*' ==> (Matches([c], s) <==> s == [c])
  {
    OneCut('?', s);
    OneCut('*', s);
    OneCut(c, s);
    assert "?" == ['?'] && "*" == ['*'];
  }

  lemma {:induction false} OneCut(c: char, s: string)
    ensures Matches([c], s) <==> Fits(c, s)
  {
    FlattenOne(s);
    if Fits(c, s) {
      assert Cut([c], [s]);
    }
    if ws :| Cut([c], ws) && Flatten(ws) == s {
      assert ws == [ws[0]];
      FlattenOne(ws[0]);
    }
  }

  lemma {:induction false} FlattenJoins(a: seq<string>, b: seq<string>)
    ensures Flatten(a + b) == Flatten(a) + Flatten(b)
    decreases |a|
  {
    if a == [] {
      assert a + b == b;
    } else {
      assert (a + b)[1..] == a[1..] + b;
      FlattenJoins(a[1..], b);
    }
  }

  lemma {:induction false} PatternsApart(p: string, q: string, s: string) returns (k: nat)
    requires Matches(p + q, s)
    ensures k <= |s| && Matches(p, s[..k]) && Matches(q, s[k..])
  {
    var ws :| Cut(p + q, ws) && Flatten(ws) == s;
    var a, b := ws[..|p|], ws[|p|..];
    FlattenJoins(a, b);
    assert ws == a + b;
    k := |Flatten(a)|;
    assert s[..k] == Flatten(a) && s[k..] == Flatten(b);
    assert Cut(p, a) && Cut(q, b);
  }

  lemma {:induction false} PatternsTogether(p: string, q: string, u: string, v: string)
    requires Matches(p, u) && Matches(q, v)
    ensures Matches(p + q, u + v)
  {
    var a :| Cut(p, a) && Flatten(a) == u;
    var b :| Cut(q, b) && Flatten(b) == v;
    FlattenJoins(a, b);
    assert Cut(p + q, a + b);
  }

  /** A pattern made of two matches exactly the strings made of two that the parts match. */
  lemma {:induction false} PatternsJoin(p: string, q: string, s: string)
    ensures Matches(p + q, s) <==> exists k | 0 <= k <= |s| :: Matches(p, s[..k]) && Matches(q, s[k..])
  {
    hide Matches;
    if Matches(p + q, s) {
      var k := PatternsApart(p, q, s);
    }
    if k :| 0 <= k <= |s| && Matches(p, s[..k]) && Matches(q, s[k..]) {
      PatternsTogether(p, q, s[..k], s[k..]);
      assert s[..k] + s[k..] == s;
    }
  }

  // ----- The recursive matcher -----

  /** `PatternMatchesString`: the first ':' or the end of `pattern` ends the pattern. */
  predicate PatternMatchesString(pattern: string, str: string)
    decreases |pattern| + |str|
  {
    var c := At(pattern, 0);
    if c == '\0' || c == ':' then str == ""
    else if c == '?' then str != "" && PatternMatchesString(pattern[1..], str[1..])
    else if c == '*' then
      (str != "" && PatternMatchesString(pattern, str[1..])) || PatternMatchesString(pattern[1..], str)
    else c == At(str, 0) && PatternMatchesString(pattern[1..], str[1..])
  }

  lemma {:induction false} FirstField(s: string)
    ensures s == "" || s[0] == ':' ==> Split(s, ':')[0] == ""
    ensures s != "" && s[0] != ':' ==> Split(s, ':')[0] == [s[0]] + Split(s[1..], ':')[0]
  {
  }

  /** A star matches by taking nothing, or one character and matching on. */
  lemma {:induction false} StarStep(pattern: string, s: string)
    requires pattern != "" && pattern[0] == '*'
    ensures Matches(pattern, s) <==> (s != "" && Matches(pattern, s[1..])) || Matches(pattern[1..], s)
  {
    MatchesCons(pattern, s);
    assert s[0..] == s;
    if s != "" {
      MatchesCons(pattern, s[1..]);
      assert forall k | 0 <= k < |s| :: s[1..][k..] == s[k + 1..];
      if k :| 0 <= k <= |s| && Matches(pattern[1..], s[k..]) {
        if k > 0 {
          assert s[1..][k - 1..] == s[k..];
        }
      }
    }
  }

  lemma {:induction false} CharacterStep(pattern: string, s: string)
    requires pattern != "" && pattern[0] != '*'
    ensures Matches(pattern, s)
       <==> s != "" && (pattern[0] == '?' || pattern[0] == s[0]) && Matches(pattern[1..], s[1..])
  {
    MatchesCons(pattern, s);
    if s != "" {
      assert s[..1] == [s[0]];
      assert forall k | 0 <= k <= |s| && Fits(pattern[0], s[..k]) :: k == 1;
    }
  }

  /** The recursive matcher decides the pattern up to the first ':', and never looks beyond it. */
  lemma {:induction false} MatcherIsCorrect(pattern: string, str: string)
    requires NulFree(pattern) && NulFree(str)
    ensures PatternMatchesString(pattern, str) <==> Matches(Split(pattern, ':')[0], str)
    decreases |pattern| + |str|
  {
    FirstField(pattern);
    var p := Split(pattern, ':')[0];
    if p == "" {
      MatchesEmpty(str);
    } else {
      assert p[1..] == Split(pattern[1..], ':')[0];
      if pattern[0] == '*' {
        StarStep(p, str);
        MatcherIsCorrect(pattern[1..], str);
        if str != "" {
          MatcherIsCorrect(pattern, str[1..]);
        }
      } else {
        CharacterStep(p, str);
        if str != "" {
          MatcherIsCorrect(pattern[1..], str[1..]);
        }
      }
    }
  }

  // ----- Lists of patterns -----

  /** Some ':'-separated pattern of the filter matches the name. */
  ghost predicate Accepts(filter: string, name: string) {
    exists i | 0 <= i < |Split(filter, ':')| :: Matches(Split(filter, ':')[i], name)
  }

  /** The first pattern decides, or the patterns after it do. */
  lemma {:induction false} AcceptsStep(filter: string, k: nat, name: string)
    requires Find(filter, ':') == Some(k)
    ensures Accepts(filter, name) <==> Matches(Split(filter, ':')[0], name) || Accepts(filter[k + 1..], name)
  {
    var fields, more := Split(filter, ':'), Split(filter[k + 1..], ':');
    assert filter == filter[..k] + [':'] + filter[k + 1..];
    SplitFirst(filter[..k], ':', filter[k + 1..]);
    assert forall i | 0 <= i < |more| :: more[i] == fields[i + 1];
  }

  lemma {:induction false} AcceptsLast(filter: string, name: string)
    requires Find(filter, ':') == None
    ensures Accepts(filter, name) <==> Matches(Split(filter, ':')[0], name)
  {
    SplitWhole(filter, ':');
  }

  /** Patterns are separated by colons; a text without a colon is one pattern. */
  lemma {:induction false} AcceptsParts(p: string, n: string, name: string)
    requires ':' !in p
    ensures Accepts(p, name) <==> Matches(p, name)
    ensures Accepts(p + ":" + n, name) <==> Matches(p, name) || Accepts(n, name)
  {
    SplitWhole(p, ':');
    SplitFirst(p, ':', n);
    var fields, one, more := Split(p + ":" + n, ':'), Split(p, ':'), Split(n, ':');
    assert fields == [p] + more && one[0] == p == fields[0];
    assert forall i | 0 <= i < |more| :: more[i] == fields[i + 1];
    if Accepts(p + ":" + n, name) {
      var i :| 0 <= i < |fields| && Matches(fields[i], name);
      assert i > 0 ==> more[i - 1] == fields[i];
    }
  }

  /** `MatchesFilter` */
  method MatchesFilter(name: string, filter: string) returns (matched: bool)
    requires NulFree(name) && NulFree(filter)
    ensures matched <==> Accepts(filter, name)
  {
    var cur := 0;
    assert filter[0..] == filter;
    while true
      invariant 0 <= cur <= |filter|
      invariant Accepts(filter, name) <==> Accepts(filter[cur..], name)
      decreases |filter| - cur
    {
      ghost var rest := filter[cur..];
      MatcherIsCorrect(rest, name);
      if PatternMatchesString(filter[cur..], name) {
        assert Accepts(rest, name);
        return true;
      }
      match Find(filter[cur..], ':') {
        case None =>
          AcceptsLast(rest, name);
          return false;
        case Some(k) =>
          AcceptsStep(rest, k, name);
          assert rest[k + 1..] == filter[cur + k + 1..];
          cur := cur + k + 1;
      }
    }
  }

  // ----- Positive and negative parts -----

  const UNIVERSAL_FILTER := "*"

  lemma {:induction false} UniversalAccepts(name: string)
    ensures Accepts(UNIVERSAL_FILTER, name)
  {
    SplitWhole("*", ':');
    assert Cut("*", [name]) && Flatten([name]) == name + Flatten([]);
    assert Matches(Split("*", ':')[0], name);
  }

  lemma {:induction false} EmptyFilterAccepts(name: string)
    ensures Accepts("", name) <==> name == ""
  {
    MatchesEmpty(name);
    assert Split("", ':')[0] == "";
  }

  function FullName(testCase: string, test: string): string {
    testCase + "." + test
  }

  /**
   * A filter selects a name when a pattern before its first '-' matches and none after it does; nothing before
   * the '-' means any name. Without a '-' some pattern must match.
   */
  ghost predicate Selects(filter: string, name: string) {
    match Find(filter, '-')
    case None => Accepts(filter, name)
    case Some(d) => (d == 0 || Accepts(filter[..d], name)) && !Accepts(filter[d + 1..], name)
  }

  lemma {:induction false} FindFirst(p: string, n: string)
    requires '-' !in p
    ensures Find(p + "-" + n, '-') == Some(|p|)
    decreases |p|
  {
    if p == "" {
      assert (p + "-" + n)[0] == '-';
    } else {
      assert (p + "-" + n)[1..] == p[1..] + "-" + n;
      FindFirst(p[1..], n);
    }
  }

  /** The part before the first dash selects, unless it is empty; the part after it excludes. */
  lemma {:induction false} FilterParts(p: string, n: string, name: string)
    requires '-' !in p
    ensures Selects(p, name) <==> Accepts(p, name)
    ensures Selects(p + "-" + n, name) <==> (p == "" || Selects(p, name)) && !Accepts(n, name)
    ensures '-' !in n ==> (Selects(p + "-" + n, name) <==> (p == "" || Selects(p, name)) && !Selects(n, name))
  {
    FindFirst(p, n);
    assert (p + "-" + n)[..|p|] == p && (p + "-" + n)[|p| + 1..] == n;
  }

  /** `FilterMatchesTest`; `flag` is the value of the filter flag. */
  method FilterMatchesTest(testCaseName: string, testName: string, flag: string) returns (matched: bool)
    requires NulFree(testCaseName) && NulFree(testName) && NulFree(flag)
    ensures matched <==> Selects(flag, FullName(testCaseName, testName))
  {
    var fullName := testCaseName + "." + testName;
    var positive, negative;
    match Find(flag, '-') {
      case None =>
        positive, negative := flag, "";
        EmptyFilterAccepts(fullName);
      case Some(dash) =>
        positive, negative := flag[..dash], flag[dash + 1..];
        if positive == "" {
          positive := UNIVERSAL_FILTER;
          UniversalAccepts(fullName);
        }
    }
    matched := MatchesFilter(fullName, positive);
    if matched {
      var excluded := MatchesFilter(fullName, negative);
      matched := !excluded;
    }
  }
}
