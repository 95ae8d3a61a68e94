/** Removing the recognised flags from an argument vector in place. */
module CommandLine {
  import opened Common

  /** An element of `argv`: an argument, or the null pointer at the end. */
  type Slot = Option<string>

  /** The arguments a recogniser does not claim, in order. */
  function Unrecognised(args: seq<Slot>, recognised: Slot -> bool): (kept: seq<Slot>)
    ensures |kept| <= |args|
  {
    if args == [] then []
    else (if recognised(args[0]) then [] else [args[0]]) + Unrecognised(args[1..], recognised)
  }

  /** `n` null slots. */
  function Nulls(n: nat): (s: seq<Slot>)
    ensures |s| == n && forall i | 0 <= i < n :: s[i] == None
  {
    seq(n, _ => None)
  }

  /** Slot `i` taken out: the slots after it, up to and including `argc`, move left by one. */
  function Shifted(s: seq<Slot>, i: nat, argc: nat): (t: seq<Slot>)
    requires i <= argc < |s|
    ensures |t| == |s|
  {
    s[..i] + s[i + 1..argc + 1] + s[argc..]
  }

  lemma {:induction false} ShiftGrows(s: seq<Slot>, i: nat, j: nat)
    requires i <= j < |s| - 1
    ensures Shifted(s, i, j + 1) == Shifted(s, i, j)[j := Shifted(s, i, j)[j + 1]]
  {
  }

  /** The inner loop: the slots from `i` on move left by one; the null at `argc` moves as well. */
  method ShiftLeft(argv: array<Slot>, i: nat, argc: nat)
    requires i < argc < argv.Length
    modifies argv
    ensures argv[..] == Shifted(old(argv[..]), i, argc)
  {
    var j := i;
    ghost var was := argv[..];
    assert Shifted(was, i, i) == was;
    while j != argc
      invariant i <= j <= argc
      invariant argv[..] == Shifted(was, i, j)
      decreases argc - j
    {
      ghost var before := argv[..];
      argv[j] := argv[j + 1];
      assert argv[..] == before[j := before[j + 1]];
      ShiftGrows(was, i, j);
      j := j + 1;
    }
  }

  /** The whole vector: the program name, what is kept, what is still to be looked at, nulls, and the slots beyond. */
  function Layout(head: Slot, kept: seq<Slot>, rest: seq<Slot>, nulls: nat, tail: seq<Slot>): (s: seq<Slot>)
    ensures |s| == 1 + |kept| + |rest| + nulls + |tail|
  {
    [head] + kept + rest + Nulls(nulls) + tail
  }

  /** What is where when nothing is left to be looked at. */
  lemma {:induction false} LayoutMeans(head: Slot, kept: seq<Slot>, nulls: nat, tail: seq<Slot>)
    ensures var s, argc := Layout(head, kept, [], nulls, tail), 1 + |kept|;
            && |s| == argc + nulls + |tail| && s[0] == head && s[1..argc] == kept
            && (forall k | argc <= k < argc + nulls :: s[k] == None) && s[argc + nulls..] == tail
  {
  }

  ghost predicate AnyAsks(args: seq<Slot>, asksForHelp: Slot -> bool) {
    exists k | 0 <= k < |args| :: asksForHelp(args[k])
  }

  /**
   * `ParseGoogleTestFlagsOnlyImpl`: `recognised` says which arguments are taken as flags, `asksForHelp` which of
   * the others ask for help. The argument count is given and returned.
   */
  method ParseFlagsOnly(argc0: nat, argv: array<Slot>, recognised: Slot -> bool, asksForHelp: Slot -> bool, help0: bool)
    returns (argc: nat, help: bool)
    requires argc0 < argv.Length && argv[argc0] == None
    modifies argv
    ensures argc0 == 0 ==> argc == 0 && help == help0 && argv[..] == old(argv[..])
    ensures argc0 > 0 ==>
              var kept := Unrecognised(old(argv[1..argc0]), recognised);
              && argc == 1 + |kept|
              && argv[..] == Layout(old(argv[0]), kept, [], argc0 + 1 - argc, old(argv[argc0 + 1..]))
              && (help <==> help0 || exists k | 0 <= k < |kept| :: asksForHelp(kept[k]))
  {
    argc, help := argc0, help0;
    if argc == 0 {
      return;
    }
    var i := 1;
    ghost var args := argv[1..argc0];
    ghost var head, tail := argv[0], argv[argc0 + 1..];
    ghost var kept: seq<Slot>, rest := [], args;
    ghost var nulls := 1;
    LayoutInitially(argv[..], argc0);
    while i < argc
      invariant 1 <= i <= argc <= argc0 && i == 1 + |kept| && argc == i + |rest|
      invariant nulls == argc0 + 1 - argc && argv[..] == Layout(head, kept, rest, nulls, tail)
      invariant kept + Unrecognised(rest, recognised) == Unrecognised(args, recognised)
      invariant help <==> help0 || AnyAsks(kept, asksForHelp)
      decreases argc - i
    {
      var arg := argv[i];
      ghost var now := argv[..];
      LayoutShows(now, i, head, kept, rest, nulls, tail);
      assert arg == now[i];
      if recognised(arg) {
        ShiftLeft(argv, i, argc);
        LayoutDrops(now, i, argc, head, kept, rest, nulls, tail);
        assert argv[..] == Shifted(now, i, argc);
        KeptSkips(kept, rest, recognised);
        rest, nulls := rest[1..], nulls + 1;
        argc := argc - 1;
        i := i - 1;
      } else {
        if asksForHelp(arg) {
          help := true;
        }
        HelpGrows(kept, arg, asksForHelp);
        KeptGrows(kept, rest, recognised);
        LayoutKeeps(head, kept, rest, nulls, tail);
        kept, rest := kept + [rest[0]], rest[1..];
      }
      i := i + 1;
    }
    KeptEnds(kept, rest, recognised);
  }

  lemma {:induction false} LayoutInitially(s: seq<Slot>, argc: nat)
    requires 0 < argc < |s| && s[argc] == None
    ensures s == Layout(s[0], [], s[1..argc], 1, s[argc + 1..])
  {
    assert Nulls(1) == [None];
  }

  lemma {:induction false} LayoutShows(s: seq<Slot>, i: nat, head: Slot, kept: seq<Slot>, rest: seq<Slot>, nulls: nat,
                                       tail: seq<Slot>)
    requires rest != [] && i == 1 + |kept| && s == Layout(head, kept, rest, nulls, tail)
    ensures s[i] == rest[0]
  {
  }

  lemma {:induction false} LayoutKeeps(head: Slot, kept: seq<Slot>, rest: seq<Slot>, nulls: nat, tail: seq<Slot>)
    requires rest != []
    ensures Layout(head, kept, rest, nulls, tail) == Layout(head, kept + [rest[0]], rest[1..], nulls, tail)
  {
    assert rest == [rest[0]] + rest[1..];
  }

  lemma {:induction false} LayoutDrops(s: seq<Slot>, i: nat, argc: nat, head: Slot, kept: seq<Slot>, rest: seq<Slot>,
                                       nulls: nat, tail: seq<Slot>)
    requires rest != [] && nulls > 0 && i == 1 + |kept| && argc == i + |rest|
    requires s == Layout(head, kept, rest, nulls, tail)
    ensures Shifted(s, i, argc) == Layout(head, kept, rest[1..], nulls + 1, tail)
  {
    assert s[..i] == [head] + kept;
    assert s[i + 1..argc + 1] == rest[1..] + [None];
    assert s[argc..] == Nulls(nulls) + tail;
    assert [None] + Nulls(nulls) == Nulls(nulls + 1);
  }

  lemma {:induction false} HelpGrows(kept: seq<Slot>, arg: Slot, asksForHelp: Slot -> bool)
    ensures AnyAsks(kept + [arg], asksForHelp) <==> asksForHelp(arg) || AnyAsks(kept, asksForHelp)
  {
    var more := kept + [arg];
    assert more[|kept|] == arg;
    assert forall k | 0 <= k < |kept| :: more[k] == kept[k];
  }

  lemma {:induction false} KeptGrows(kept: seq<Slot>, rest: seq<Slot>, recognised: Slot -> bool)
    requires rest != [] && !recognised(rest[0])
    ensures kept + Unrecognised(rest, recognised) == kept + [rest[0]] + Unrecognised(rest[1..], recognised)
  {
  }

  lemma {:induction false} KeptEnds(kept: seq<Slot>, rest: seq<Slot>, recognised: Slot -> bool)
    requires |rest| == 0
    ensures rest == [] && kept + Unrecognised(rest, recognised) == kept
  {
  }

  lemma {:induction false} KeptSkips(kept: seq<Slot>, rest: seq<Slot>, recognised: Slot -> bool)
    requires rest != [] && recognised(rest[0])
    ensures kept + Unrecognised(rest, recognised) == kept + Unrecognised(rest[1..], recognised)
  {
    assert [] + Unrecognised(rest[1..], recognised) == Unrecognised(rest[1..], recognised);
  }

  /** What is kept is what the recogniser does not claim, with nothing lost, added or moved. */
  lemma {:induction false} KeptMeans(args: seq<Slot>, recognised: Slot -> bool)
    ensures forall x | x in Unrecognised(args, recognised) :: !recognised(x)
    ensures forall x | !recognised(x) :: multiset(Unrecognised(args, recognised))[x] == multiset(args)[x]
    decreases |args|
  {
    if args != [] {
      KeptMeans(args[1..], recognised);
      assert args == [args[0]] + args[1..];
    }
  }

  /** Order is kept: filtering a concatenation filters its parts in turn. */
  lemma {:induction false} KeptInOrder(a: seq<Slot>, b: seq<Slot>, recognised: Slot -> bool)
    ensures Unrecognised(a + b, recognised) == Unrecognised(a, recognised) + Unrecognised(b, recognised)
    decreases |a|
  {
    if a == [] {
      assert a + b == b;
    } else {
      assert (a + b)[1..] == a[1..] + b;
      KeptInOrder(a[1..], b, recognised);
    }
  }
}
