/** Names of test cases and tests that the framework treats specially, by fixed filters. */
module TestNames {
  import opened Common
  import opened TextFields
  import opened TestFilter

  const DISABLE_TEST_FILTER := "DISABLED_*:*/DISABLED_*"
  const DEATH_TEST_CASE_FILTER := "*DeathTest:*DeathTest/*"

  ghost predicate IsDeathTestCase(testCaseName: string) {
    Accepts(DEATH_TEST_CASE_FILTER, testCaseName)
  }

  ghost predicate IsDisabled(testCaseName: string, testName: string) {
    Accepts(DISABLE_TEST_FILTER, testCaseName) || Accepts(DISABLE_TEST_FILTER, testName)
  }

  method MatchesDisableFilter(testCaseName: string, testName: string) returns (isDisabled: bool)
    requires NulFree(testCaseName) && NulFree(testName)
    ensures isDisabled <==> IsDisabled(testCaseName, testName)
  {
    isDisabled := MatchesFilter(testCaseName, DISABLE_TEST_FILTER);
    if !isDisabled {
      isDisabled := MatchesFilter(testName, DISABLE_TEST_FILTER);
    }
  }

  predicate Literal(w: string) {
    '*' !in w && '?' !in w && ':' !in w
  }

  /** Literal characters at the front of a pattern match themselves. */
  lemma {:induction false} LiteralFirst(w: string, pattern: string, s: string)
    requires Literal(w)
    ensures Matches(w + pattern, s) <==> w <= s && Matches(pattern, s[|w|..])
    decreases |w|
  {
    if w == "" {
      assert w + pattern == pattern && s[0..] == s;
    } else {
      assert w[0] in w && (w + pattern)[1..] == w[1..] + pattern;
      CharacterStep(w + pattern, s);
      if s != "" {
        LiteralFirst(w[1..], pattern, s[1..]);
        assert s == [s[0]] + s[1..] && w == [w[0]] + w[1..];
        if w[1..] <= s[1..] {
          assert s[1..][|w[1..]|..] == s[|w|..];
        }
      }
    }
  }

  lemma {:induction false} StarFirst(pattern: string, s: string)
    ensures Matches("*" + pattern, s) <==> exists k | 0 <= k <= |s| :: Matches(pattern, s[k..])
  {
    MatchesCons("*" + pattern, s);
    assert ("*" + pattern)[1..] == pattern;
    forall k | 0 <= k <= |s|
      ensures Fits('*', s[..k])
    {
    }
    if k :| 0 <= k <= |s| && Matches(pattern, s[k..]) {
      assert Fits(("*" + pattern)[0], s[..k]) && Matches(("*" + pattern)[1..], s[k..]);
    }
  }

  lemma {:induction false} StarMatchesAll(s: string)
    ensures Matches("*", s)
  {
    assert Cut("*", [s]) && Flatten([s]) == s + Flatten([]);
  }

  ghost predicate Contains(s: string, w: string) {
    exists k | 0 <= k <= |s| :: w <= s[k..]
  }

  predicate EndsWith(s: string, w: string) {
    |w| <= |s| && s[|s| - |w|..] == w
  }

  lemma {:induction false} SuffixPattern(w: string, s: string)
    requires Literal(w)
    ensures Matches("*" + w, s) <==> EndsWith(s, w)
  {
    StarFirst(w, s);
    assert w + "" == w;
    forall k | 0 <= k <= |s|
      ensures Matches(w, s[k..]) <==> s[k..] == w
    {
      LiteralFirst(w, "", s[k..]);
      if w <= s[k..] {
        MatchesEmpty(s[k..][|w|..]);
      }
    }
    if EndsWith(s, w) {
      assert Matches(w, s[|s| - |w|..]);
    }
  }

  lemma {:induction false} PrefixPattern(w: string, s: string)
    requires Literal(w)
    ensures Matches(w + "*", s) <==> w <= s
  {
    LiteralFirst(w, "*", s);
    if w <= s {
      StarMatchesAll(s[|w|..]);
    }
  }

  lemma {:induction false} InfixPattern(w: string, s: string)
    requires Literal(w)
    ensures Matches("*" + (w + "*"), s) <==> Contains(s, w)
  {
    StarFirst(w + "*", s);
    forall k | 0 <= k <= |s|
      ensures Matches(w + "*", s[k..]) <==> w <= s[k..]
    {
      PrefixPattern(w, s[k..]);
    }
  }

  lemma {:induction false} TwoPatterns(p: string, q: string, name: string)
    requires ':' !in p && ':' !in q
    ensures Accepts(p + ":" + q, name) <==> Matches(p, name) || Matches(q, name)
  {
    AcceptsParts(p, q, name);
    AcceptsParts(q, "", name);
  }

  lemma {:induction false} LiteralPattern(w: string, s: string)
    requires Literal(w)
    ensures Matches(w, s) <==> s == w
  {
    LiteralFirst(w, "", s);
    assert w + "" == w;
    if w <= s {
      MatchesEmpty(s[|w|..]);
      assert s == w + s[|w|..];
    }
  }

  lemma {:induction false} DotIsFirst(c: string, t: string)
    requires '.' !in c
    ensures Find(c + "." + t, '.') == Some(|c|)
    decreases |c|
  {
    if c == "" {
      assert (c + "." + t)[0] == '.';
    } else {
      assert (c + "." + t)[1..] == c[1..] + "." + t;
      DotIsFirst(c[1..], t);
    }
  }

  lemma {:induction false} NamesApart(c: string, t: string, d: string, u: string)
    requires '.' !in c && '.' !in d && c + "." + t == d + "." + u
    ensures c == d && t == u
  {
    var s := c + "." + t;
    DotIsFirst(c, t);
    DotIsFirst(d, u);
    assert c == s[..|c|] && d == s[..|d|] && t == s[|c| + 1..] && u == s[|d| + 1..];
  }

  /** The full name of a test, as a filter, selects that test of that test case and no other. */
  lemma {:induction false} OneTest(c: string, t: string, testCaseName: string, testName: string)
    requires Literal(c) && Literal(t) && '-' !in c && '-' !in t && '.' !in c && '.' !in testCaseName
    ensures Selects(c + "." + t, FullName(testCaseName, testName)) <==> testCaseName == c && testName == t
  {
    var w, name := c + "." + t, testCaseName + "." + testName;
    FilterParts(w, "", name);
    SplitWhole(w, ':');
    assert Split(w, ':')[0] == w;
    LiteralPattern(w, name);
    if w == name {
      NamesApart(c, t, testCaseName, testName);
    }
  }

  /** A death test case is one whose name ends in "DeathTest", or has "DeathTest/" in it. */
  lemma {:induction false} DeathTestCaseNames(name: string)
    ensures IsDeathTestCase(name) <==> EndsWith(name, "DeathTest") || Contains(name, "DeathTest/")
  {
    SuffixPattern("DeathTest", name);
    InfixPattern("DeathTest/", name);
    TwoPatterns("*" + "DeathTest", "*" + ("DeathTest/" + "*"), name);
    assert DEATH_TEST_CASE_FILTER == ("*" + "DeathTest") + ":" + ("*" + ("DeathTest/" + "*"));
  }

  /** What marks a test case or a test as disabled. */
  ghost predicate LooksDisabled(name: string) {
    "DISABLED_" <= name || Contains(name, "/DISABLED_")
  }

  lemma {:induction false} DisabledPattern(name: string)
    ensures Accepts(DISABLE_TEST_FILTER, name) <==> LooksDisabled(name)
  {
    assert DISABLE_TEST_FILTER == ("DISABLED_" + "*") + ":" + ("*" + ("/DISABLED_" + "*"));
    PrefixPattern("DISABLED_", name);
    InfixPattern("/DISABLED_", name);
    TwoPatterns("DISABLED_" + "*", "*" + ("/DISABLED_" + "*"), name);
  }

  /** A test is disabled when one of its names starts with "DISABLED_", or has "/DISABLED_" in it. */
  lemma {:induction false} DisabledNames(testCaseName: string, testName: string)
    ensures IsDisabled(testCaseName, testName)
        <==> || "DISABLED_" <= testCaseName || Contains(testCaseName, "/DISABLED_")
             || "DISABLED_" <= testName || Contains(testName, "/DISABLED_")
  {
    DisabledPattern(testCaseName);
    DisabledPattern(testName);
  }
}
