/** The argument splitter of benchinit: `lazyFlagParse` and its table of
    `go test` flags. Arguments meant for `go test` are kept apart from the
    ones left for benchinit's own flag set, in a single left-to-right scan. */
module TestFlags {

  import opened Sequences

  /** One row of the flag table: a flag name, and whether it is a boolean
      switch (true) or takes the next argument as its value (false). */
  datatype FlagDef = FlagDef(name: string, boolVar: bool)

  /** The `go test` flags benchinit recognises, in table order. */
  const TestFlagDefn: seq<FlagDef> := [
    // local.
    FlagDef("c", true),
    FlagDef("i", true),
    FlagDef("o", false),
    FlagDef("cover", true),
    FlagDef("covermode", false),
    FlagDef("coverpkg", false),
    FlagDef("exec", false),
    FlagDef("json", true),
    FlagDef("vet", false),
    // passed on to the test binary.
    FlagDef("bench", false),
    FlagDef("benchmem", true),
    FlagDef("benchtime", false),
    FlagDef("blockprofile", false),
    FlagDef("blockprofilerate", false),
    FlagDef("count", false),
    FlagDef("coverprofile", false),
    FlagDef("cpu", false),
    FlagDef("cpuprofile", false),
    FlagDef("failfast", true),
    FlagDef("list", false),
    FlagDef("memprofile", false),
    FlagDef("memprofilerate", false),
    FlagDef("mutexprofile", false),
    FlagDef("mutexprofilefraction", false),
    FlagDef("outputdir", false),
    FlagDef("parallel", false),
    FlagDef("run", false),
    FlagDef("short", true),
    FlagDef("timeout", false),
    FlagDef("trace", false),
    FlagDef("v", true)
  ]

  predicate HasPrefix(s: string, p: string) {
    |p| <= |s| && s[..|p|] == p
  }

  /** Flag names made of lower-case letters only. */
  predicate LowerCase(name: string) {
    forall k :: 0 <= k < |name| ==> 'a' <= name[k] <= 'z'
  }

  /** A table is well formed when its names are lower-case words and no name
      occurs twice; then the first-match scan of the table has a meaning that
      does not depend on the order of the rows. */
  predicate WellFormed(defs: seq<FlagDef>) {
    (forall i :: 0 <= i < |defs| ==> LowerCase(defs[i].name)) &&
    (forall i, j :: 0 <= i < j < |defs| ==> defs[i].name != defs[j].name)
  }

  /** How a dash token (without its dash) matched the table. */
  datatype Match = BoolFlag | ValueFlag | Assignment | NoMatch

  /** The inner scan of lazyFlagParse: the first row whose name equals `name`
      (a boolean or a value-taking flag) or is followed by '=' in `name`. */
  function MatchFlag(name: string, defs: seq<FlagDef>): Match
  {
    if defs == [] then NoMatch
    else if name == defs[0].name then (if defs[0].boolVar then BoolFlag else ValueFlag)
    else if HasPrefix(name, defs[0].name + "=") then Assignment
    else MatchFlag(name, defs[1..])
  }

  /** A token that stops the scan: the empty string, "--", or one without a leading dash. */
  predicate EndsScan(arg: string) {
    arg == "" || arg == "--" || arg[0] != '-'
  }

  /** How many tokens the flag token at `args[i]` consumes: two for a
      value-taking flag that has a token after it, one otherwise. */
  function Width(defs: seq<FlagDef>, args: seq<string>, i: nat): nat
    requires i < |args| && !EndsScan(args[i])
  {
    if MatchFlag(args[i][1..], defs) == ValueFlag && i + 1 < |args| then 2 else 1
  }

  /** What the flag token at `args[i]` appends to testflags: a value-taking
      flag comes with its value, or with "" when it is the last token. */
  function TestStep(defs: seq<FlagDef>, args: seq<string>, i: nat): seq<string>
    requires i < |args| && !EndsScan(args[i])
  {
    match MatchFlag(args[i][1..], defs)
    case NoMatch => []
    case ValueFlag => [args[i], if i + 1 < |args| then args[i + 1] else ""]
    case _ => [args[i]]
  }

  /** What the flag token at `args[i]` appends to rest. */
  function RestStep(defs: seq<FlagDef>, args: seq<string>, i: nat): seq<string>
    requires i < |args| && !EndsScan(args[i])
  {
    if MatchFlag(args[i][1..], defs) == NoMatch then [args[i]] else []
  }

  /** The testflags the scan of `args` collects from position `i` on;
      lazyFlagParse returns TestFrom(defs, args, 0). */
  function TestFrom(defs: seq<FlagDef>, args: seq<string>, i: nat): seq<string>
    requires i <= |args|
    decreases |args| - i
  {
    if i == |args| || EndsScan(args[i]) then []
    else TestStep(defs, args, i) + TestFrom(defs, args, i + Width(defs, args, i))
  }

  /** The rest the scan of `args` collects from position `i` on. */
  function RestFrom(defs: seq<FlagDef>, args: seq<string>, i: nat): seq<string>
    requires i <= |args|
    decreases |args| - i
  {
    if i == |args| then []
    else if EndsScan(args[i]) then args[i..]
    else RestStep(defs, args, i) + RestFrom(defs, args, i + Width(defs, args, i))
  }

  /** The scan from `i` ends on a value-taking flag with nothing after it, so
      an empty value is made up for it. */
  predicate Padded(defs: seq<FlagDef>, args: seq<string>, i: nat)
    requires i <= |args|
    decreases |args| - i
  {
    i < |args| && !EndsScan(args[i]) &&
    ((MatchFlag(args[i][1..], defs) == ValueFlag && i + 1 == |args|) || Padded(defs, args, i + Width(defs, args, i)))
  }

  /** The scan started at `i` arrives at position `k`: every token it meets
      before `k` is a flag token, and no value-taking flag before `k` takes
      its value from `k` or beyond. */
  predicate Reaches(defs: seq<FlagDef>, args: seq<string>, i: nat, k: nat)
    requires i <= k <= |args|
    decreases k - i
  {
    i == k ||
    (!EndsScan(args[i]) && (MatchFlag(args[i][1..], defs) == ValueFlag ==> i + 1 < k) &&
     Reaches(defs, args, i + Width(defs, args, i), k))
  }

  /** `a` is an order-preserving merge of `t` and `r`: every element of `a`
      is taken, in order, from the front of exactly one of the two. */
  predicate Merge(a: seq<string>, t: seq<string>, r: seq<string>)
    decreases |a|
  {
    if a == [] then t == [] && r == []
    else (t != [] && t[0] == a[0] && Merge(a[1..], t[1..], r)) ||
         (r != [] && r[0] == a[0] && Merge(a[1..], t, r[1..]))
  }

  /** The table loop of lazyFlagParse. */
  method LookupFlag(defs: seq<FlagDef>, name: string) returns (m: Match)
    ensures m == MatchFlag(name, defs)
  {
    var k := 0;
    while k < |defs|
      invariant 0 <= k <= |defs|
      invariant MatchFlag(name, defs) == MatchFlag(name, defs[k..])
    {
      var tflag := defs[k];
      assert defs[k..][0] == tflag && defs[k..][1..] == defs[k + 1..];
      if name == tflag.name {
        if tflag.boolVar {
          return BoolFlag;
        }
        return ValueFlag;
      } else if HasPrefix(name, tflag.name + "=") {
        return Assignment;
      }
      k := k + 1;
    }
    return NoMatch;
  }

  /** lazyFlagParse: splits `args` into the flags for `go test` and the rest,
      scanning the table `defs` (benchinit passes TestFlagDefn). */
  method LazyFlagParse(defs: seq<FlagDef>, args: seq<string>) returns (testflags: seq<string>, rest: seq<string>)
    ensures testflags == TestFrom(defs, args, 0) && rest == RestFrom(defs, args, 0)
  {
    testflags, rest := [], [];
    var i := 0;
    while i < |args|
      invariant 0 <= i <= |args|
      invariant TestFrom(defs, args, 0) == testflags + TestFrom(defs, args, i)
      invariant RestFrom(defs, args, 0) == rest + RestFrom(defs, args, i)
    {
      var arg := args[i];
      if arg == "" || arg == "--" || arg[0] != '-' {
        rest := rest + args[i..];
        assert testflags + [] == testflags;
        break;
      }
      ghost var t0, r0, j := testflags, rest, i;
      var m := LookupFlag(defs, arg[1..]);
      if m == BoolFlag || m == Assignment {
        // e.g. -benchmem, -count=10
        testflags := testflags + [arg];
      } else if m == ValueFlag {
        var next := "";
        if i + 1 < |args| {
          i := i + 1;
          next := args[i];
        }
        testflags := testflags + [arg, next];
      } else {
        // likely one of benchinit's own flags
        rest := rest + [arg];
      }
      i := i + 1;
      StepInvariant(defs, args, j, i, t0, r0, testflags, rest);
    }
  }

  /** One round of the loop of LazyFlagParse keeps its invariants. */
  lemma StepInvariant(defs: seq<FlagDef>, args: seq<string>, j: nat, i: nat,
                      t0: seq<string>, r0: seq<string>, t1: seq<string>, r1: seq<string>)
    requires j < |args| && !EndsScan(args[j]) && i == j + Width(defs, args, j)
    requires t1 == t0 + TestStep(defs, args, j) && r1 == r0 + RestStep(defs, args, j)
    requires TestFrom(defs, args, 0) == t0 + TestFrom(defs, args, j)
    requires RestFrom(defs, args, 0) == r0 + RestFrom(defs, args, j)
    ensures TestFrom(defs, args, 0) == t1 + TestFrom(defs, args, i)
    ensures RestFrom(defs, args, 0) == r1 + RestFrom(defs, args, i)
  {
    Assoc(t0, TestStep(defs, args, j), TestFrom(defs, args, i));
    Assoc(r0, RestStep(defs, args, j), RestFrom(defs, args, i));
  }


  // ----- the table -----

  /** The table's names are lower-case words, each occurring once. The facts
      are established over parts of the table, to keep each proof small. */
  lemma TableWellFormed()
    ensures WellFormed(TestFlagDefn)
  {
    TableLowerCaseA();
    TableLowerCaseB();
    TableLowerCaseC();
    TableLowerCaseD();
    TableDistinctFirstHalf();
    TableDistinctAcrossHalves();
    TableDistinctSecondHalf();
  }

  lemma TableLowerCaseA()
    ensures forall i :: 0 <= i < 8 ==> LowerCase(TestFlagDefn[i].name)
  {
  }

  lemma TableLowerCaseB()
    ensures forall i :: 8 <= i < 16 ==> LowerCase(TestFlagDefn[i].name)
  {
  }

  lemma TableLowerCaseC()
    ensures forall i :: 16 <= i < 24 ==> LowerCase(TestFlagDefn[i].name)
  {
  }

  lemma TableLowerCaseD()
    ensures forall i :: 24 <= i < |TestFlagDefn| ==> LowerCase(TestFlagDefn[i].name)
  {
  }

  lemma TableDistinctFirstHalf()
    ensures forall i, j :: 0 <= i < j < 16 ==> TestFlagDefn[i].name != TestFlagDefn[j].name
  {
  }

  lemma TableDistinctAcrossHalves()
    ensures forall i, j :: 0 <= i < 16 <= j < |TestFlagDefn| ==> TestFlagDefn[i].name != TestFlagDefn[j].name
  {
  }

  lemma TableDistinctSecondHalf()
    ensures forall i, j :: 16 <= i < j < |TestFlagDefn| ==> TestFlagDefn[i].name != TestFlagDefn[j].name
  {
  }

  /** On a well-formed table, the first-match scan means: a boolean flag of
      that name, a value-taking flag of that name, or some name followed by '='. */
  lemma {:induction false} MatchFlagMeaning(name: string, defs: seq<FlagDef>)
    requires WellFormed(defs)
    ensures MatchFlag(name, defs) == BoolFlag <==> exists i :: 0 <= i < |defs| && defs[i].name == name && defs[i].boolVar
    ensures MatchFlag(name, defs) == ValueFlag <==> exists i :: 0 <= i < |defs| && defs[i].name == name && !defs[i].boolVar
    ensures MatchFlag(name, defs) == Assignment <==> exists i :: 0 <= i < |defs| && HasPrefix(name, defs[i].name + "=")
    ensures MatchFlag(name, defs) == NoMatch <==>
      forall i :: 0 <= i < |defs| ==> defs[i].name != name && !HasPrefix(name, defs[i].name + "=")
    decreases |defs|
  {
    if defs != [] {
      var tail := defs[1..];
      assert WellFormed(tail) by {
        forall i, j | 0 <= i < j < |tail| ensures tail[i].name != tail[j].name {
          assert tail[i] == defs[i + 1] && tail[j] == defs[j + 1];
        }
      }
      MatchFlagMeaning(name, tail);
      forall i | 0 <= i < |defs| && HasPrefix(name, defs[i].name + "=") ensures name != defs[0].name {
        NoEqualsAfterPrefix(name, defs[i].name, defs[0].name, defs, 0);
      }
      forall i | 0 <= i < |defs| && HasPrefix(name, defs[0].name + "=") ensures name != defs[i].name {
        NoEqualsAfterPrefix(name, defs[0].name, defs[i].name, defs, i);
      }
      forall i | 1 <= i < |defs| ensures defs[i] == tail[i - 1] { }
    }
  }

  /** A name of a well-formed table never has the form "n=...". */
  lemma NoEqualsAfterPrefix(name: string, n: string, m: string, defs: seq<FlagDef>, i: nat)
    requires WellFormed(defs) && i < |defs| && defs[i].name == m
    requires HasPrefix(name, n + "=")
    ensures name != m
  {
    assert name[|n|] == (n + "=")[|n|] == '=';
  }

  /** "-" followed by a table name is a flag token whose name is `name`. */
  lemma DashNameIsFlag(defs: seq<FlagDef>, name: string, i: nat)
    requires WellFormed(defs) && i < |defs| && defs[i].name == name
    ensures !EndsScan("-" + name) && ("-" + name)[1..] == name
  {
    var tok := "-" + name;
    assert tok[0] == '-' && tok[1..] == name;
    if |name| > 0 {
      assert tok[1] == name[0] && LowerCase(defs[i].name);
    }
  }

  // ----- single tokens -----

  /** A known boolean flag goes to testflags on its own. */
  lemma BoolFlagAlone(defs: seq<FlagDef>, args: seq<string>, i: nat, name: string)
    requires WellFormed(defs) && i < |args| && args[i] == "-" + name
    requires exists k :: 0 <= k < |defs| && defs[k].name == name && defs[k].boolVar
    ensures TestFrom(defs, args, i) == [args[i]] + TestFrom(defs, args, i + 1)
    ensures RestFrom(defs, args, i) == RestFrom(defs, args, i + 1)
  {
    MatchFlagMeaning(name, defs);
    var k :| 0 <= k < |defs| && defs[k].name == name && defs[k].boolVar;
    DashNameIsFlag(defs, name, k);
  }

  /** A known value-taking flag goes to testflags together with the token
      after it, which is not looked at on its own. */
  lemma ValueFlagTakesNext(defs: seq<FlagDef>, args: seq<string>, i: nat, name: string)
    requires WellFormed(defs) && i + 1 < |args| && args[i] == "-" + name
    requires exists k :: 0 <= k < |defs| && defs[k].name == name && !defs[k].boolVar
    ensures TestFrom(defs, args, i) == [args[i], args[i + 1]] + TestFrom(defs, args, i + 2)
    ensures RestFrom(defs, args, i) == RestFrom(defs, args, i + 2)
  {
    MatchFlagMeaning(name, defs);
    var k :| 0 <= k < |defs| && defs[k].name == name && !defs[k].boolVar;
    DashNameIsFlag(defs, name, k);
  }

  /** A known value-taking flag in last position is given the empty value. */
  lemma ValueFlagLast(defs: seq<FlagDef>, args: seq<string>, name: string)
    requires WellFormed(defs) && |args| > 0 && args[|args| - 1] == "-" + name
    requires exists k :: 0 <= k < |defs| && defs[k].name == name && !defs[k].boolVar
    ensures TestFrom(defs, args, |args| - 1) == ["-" + name, ""]
    ensures RestFrom(defs, args, |args| - 1) == []
    ensures Padded(defs, args, |args| - 1)
  {
    MatchFlagMeaning(name, defs);
    var k :| 0 <= k < |defs| && defs[k].name == name && !defs[k].boolVar;
    DashNameIsFlag(defs, name, k);
  }

  /** `-name=value` for a known name goes to testflags verbatim. */
  lemma AssignmentVerbatim(defs: seq<FlagDef>, args: seq<string>, i: nat, name: string, value: string)
    requires WellFormed(defs) && i < |args| && args[i] == "-" + name + "=" + value
    requires exists k :: 0 <= k < |defs| && defs[k].name == name
    ensures TestFrom(defs, args, i) == [args[i]] + TestFrom(defs, args, i + 1)
    ensures RestFrom(defs, args, i) == RestFrom(defs, args, i + 1)
  {
    var tok := args[i];
    MatchFlagMeaning(tok[1..], defs);
    var k :| 0 <= k < |defs| && defs[k].name == name;
    assert tok[0] == '-' && tok[1..] == name + "=" + value;
    assert HasPrefix(tok[1..], defs[k].name + "=");
    if |name| > 0 {
      assert tok[1] == name[0] && LowerCase(defs[k].name);
    } else {
      assert tok[1] == '=';
    }
  }

  /** A dash token that matches no table row goes to rest, and the scan goes on. */
  lemma UnknownDashToRest(defs: seq<FlagDef>, args: seq<string>, i: nat)
    requires WellFormed(defs) && i < |args|
    requires |args[i]| > 0 && args[i][0] == '-' && args[i] != "--"
    requires forall k :: 0 <= k < |defs| ==> defs[k].name != args[i][1..] && !HasPrefix(args[i][1..], defs[k].name + "=")
    ensures TestFrom(defs, args, i) == TestFrom(defs, args, i + 1)
    ensures RestFrom(defs, args, i) == [args[i]] + RestFrom(defs, args, i + 1)
  {
    MatchFlagMeaning(args[i][1..], defs);
  }

  // ----- the scan as a whole -----

  /** A flag token before `k` is read the same in `args` and in `args[..k]`. */
  lemma StepAgrees(defs: seq<FlagDef>, args: seq<string>, i: nat, k: nat)
    requires i < k <= |args| && !EndsScan(args[i])
    requires MatchFlag(args[i][1..], defs) == ValueFlag ==> i + 1 < k
    ensures i < |args[..k]| && !EndsScan(args[..k][i])
    ensures Width(defs, args[..k], i) == Width(defs, args, i)
    ensures TestStep(defs, args[..k], i) == TestStep(defs, args, i)
    ensures RestStep(defs, args[..k], i) == RestStep(defs, args, i)
  {
    assert args[..k][i] == args[i];
    if MatchFlag(args[i][1..], defs) == ValueFlag {
      assert args[..k][i + 1] == args[i + 1];
    }
  }

  /** Once the scan meets a stop token ("", "--" or a token without a dash)
      at `k`, nothing from `k` on enters testflags: they are those of
      `args[..k]`. */
  lemma {:induction false} StopTest(defs: seq<FlagDef>, args: seq<string>, i: nat, k: nat)
    requires i <= k < |args| && Reaches(defs, args, i, k) && EndsScan(args[k])
    ensures TestFrom(defs, args, i) == TestFrom(defs, args[..k], i)
    decreases k - i
  {
    if i < k {
      StepAgrees(defs, args, i, k);
      StopTest(defs, args, i + Width(defs, args, i), k);
    }
  }

  /** ... and the stop token goes to rest with everything after it, unchanged
      and in order. */
  lemma {:induction false} StopRest(defs: seq<FlagDef>, args: seq<string>, i: nat, k: nat)
    requires i <= k < |args| && Reaches(defs, args, i, k) && EndsScan(args[k])
    ensures RestFrom(defs, args, i) == RestFrom(defs, args[..k], i) + args[k..]
    decreases k - i
  {
    if i < k {
      StepAgrees(defs, args, i, k);
      var n := Width(defs, args, i);
      StopRest(defs, args, i + n, k);
      Assoc(RestStep(defs, args, i), RestFrom(defs, args[..k], i + n), args[k..]);
    }
  }

  /** Every token from `i` on lands in exactly one of testflags and rest,
      each keeping the input order; the only token not taken from the input
      is the "" made up for a value-taking flag at the very end. */
  lemma {:induction false} SplitIsMerge(defs: seq<FlagDef>, args: seq<string>, i: nat)
    requires i <= |args|
    ensures Merge(args[i..] + Pad(defs, args, i), TestFrom(defs, args, i), RestFrom(defs, args, i))
    decreases |args| - i
  {
    if i == |args| {
      assert args[i..] + Pad(defs, args, i) == [];
    } else if EndsScan(args[i]) {
      MergeRest(args[i..]);
      assert args[i..] + Pad(defs, args, i) == args[i..];
    } else {
      var arg := args[i];
      var m := MatchFlag(arg[1..], defs);
      if m == ValueFlag && i + 1 == |args| {
        assert args[i..] + Pad(defs, args, i) == [arg, ""];
        MergeLastValue(arg);
      } else {
        var n := Width(defs, args, i);
        SplitIsMerge(defs, args, i + n);
        if m == NoMatch {
          MergeUnknownStep(defs, args, i);
        } else if m == ValueFlag {
          MergeValueStep(defs, args, i);
        } else {
          MergeSingleStep(defs, args, i);
        }
      }
    }
  }

  function Pad(defs: seq<FlagDef>, args: seq<string>, i: nat): seq<string>
    requires i <= |args|
  {
    if Padded(defs, args, i) then [""] else []
  }

  lemma MergeUnknownStep(defs: seq<FlagDef>, args: seq<string>, i: nat)
    requires i < |args| && !EndsScan(args[i]) && MatchFlag(args[i][1..], defs) == NoMatch
    requires Merge(args[i + 1..] + Pad(defs, args, i + 1), TestFrom(defs, args, i + 1), RestFrom(defs, args, i + 1))
    ensures Merge(args[i..] + Pad(defs, args, i), TestFrom(defs, args, i), RestFrom(defs, args, i))
  {
    UnknownStepParts(defs, args, i);
    MergeTakeRest(args[i], args[i + 1..] + Pad(defs, args, i + 1), TestFrom(defs, args, i + 1), RestFrom(defs, args, i + 1));
  }

  lemma UnknownStepParts(defs: seq<FlagDef>, args: seq<string>, i: nat)
    requires i < |args| && !EndsScan(args[i]) && MatchFlag(args[i][1..], defs) == NoMatch
    ensures args[i..] + Pad(defs, args, i) == [args[i]] + (args[i + 1..] + Pad(defs, args, i + 1))
    ensures TestFrom(defs, args, i) == TestFrom(defs, args, i + 1)
    ensures RestFrom(defs, args, i) == [args[i]] + RestFrom(defs, args, i + 1)
  {
    assert Pad(defs, args, i) == Pad(defs, args, i + 1);
    assert args[i..] == [args[i]] + args[i + 1..];
  }

  lemma MergeSingleStep(defs: seq<FlagDef>, args: seq<string>, i: nat)
    requires i < |args| && !EndsScan(args[i])
    requires MatchFlag(args[i][1..], defs) == BoolFlag || MatchFlag(args[i][1..], defs) == Assignment
    requires Merge(args[i + 1..] + Pad(defs, args, i + 1), TestFrom(defs, args, i + 1), RestFrom(defs, args, i + 1))
    ensures Merge(args[i..] + Pad(defs, args, i), TestFrom(defs, args, i), RestFrom(defs, args, i))
  {
    SingleStepParts(defs, args, i);
    MergeTakeTest(args[i], args[i + 1..] + Pad(defs, args, i + 1), TestFrom(defs, args, i + 1), RestFrom(defs, args, i + 1));
  }

  lemma SingleStepParts(defs: seq<FlagDef>, args: seq<string>, i: nat)
    requires i < |args| && !EndsScan(args[i])
    requires MatchFlag(args[i][1..], defs) == BoolFlag || MatchFlag(args[i][1..], defs) == Assignment
    ensures args[i..] + Pad(defs, args, i) == [args[i]] + (args[i + 1..] + Pad(defs, args, i + 1))
    ensures TestFrom(defs, args, i) == [args[i]] + TestFrom(defs, args, i + 1)
    ensures RestFrom(defs, args, i) == RestFrom(defs, args, i + 1)
  {
    assert Pad(defs, args, i) == Pad(defs, args, i + 1);
    assert args[i..] == [args[i]] + args[i + 1..];
  }

  lemma MergeValueStep(defs: seq<FlagDef>, args: seq<string>, i: nat)
    requires i + 1 < |args| && !EndsScan(args[i]) && MatchFlag(args[i][1..], defs) == ValueFlag
    requires Merge(args[i + 2..] + Pad(defs, args, i + 2), TestFrom(defs, args, i + 2), RestFrom(defs, args, i + 2))
    ensures Merge(args[i..] + Pad(defs, args, i), TestFrom(defs, args, i), RestFrom(defs, args, i))
  {
    ValueStepParts(defs, args, i);
    MergeTakeTwo(args[i], args[i + 1], args[i + 2..] + Pad(defs, args, i + 2), TestFrom(defs, args, i + 2), RestFrom(defs, args, i + 2));
  }

  lemma ValueStepParts(defs: seq<FlagDef>, args: seq<string>, i: nat)
    requires i + 1 < |args| && !EndsScan(args[i]) && MatchFlag(args[i][1..], defs) == ValueFlag
    ensures args[i..] + Pad(defs, args, i) == [args[i], args[i + 1]] + (args[i + 2..] + Pad(defs, args, i + 2))
    ensures TestFrom(defs, args, i) == [args[i], args[i + 1]] + TestFrom(defs, args, i + 2)
    ensures RestFrom(defs, args, i) == RestFrom(defs, args, i + 2)
  {
    assert Pad(defs, args, i) == Pad(defs, args, i + 2);
    assert args[i..] == [args[i], args[i + 1]] + args[i + 2..];
  }

  lemma MergeLastValue(x: string)
    ensures Merge([x, ""], [x, ""], [])
  {
    assert [x, ""][1..] == [""] && [""][1..] == [];
  }

  lemma MergeTakeTwo(x: string, y: string, a: seq<string>, t: seq<string>, r: seq<string>)
    requires Merge(a, t, r)
    ensures Merge([x, y] + a, [x, y] + t, r)
  {
    MergeTakeTest(y, a, t, r);
    MergeTakeTest(x, [y] + a, [y] + t, r);
    assert [x] + ([y] + a) == [x, y] + a && [x] + ([y] + t) == [x, y] + t;
  }

  lemma MergeTakeTest(x: string, a: seq<string>, t: seq<string>, r: seq<string>)
    requires Merge(a, t, r)
    ensures Merge([x] + a, [x] + t, r)
  {
    assert ([x] + a)[1..] == a && ([x] + t)[1..] == t;
  }

  lemma MergeTakeRest(x: string, a: seq<string>, t: seq<string>, r: seq<string>)
    requires Merge(a, t, r)
    ensures Merge([x] + a, t, [x] + r)
  {
    assert ([x] + a)[1..] == a && ([x] + r)[1..] == r;
  }

  /** Any sequence is the merge of nothing and itself. */
  lemma {:induction false} MergeRest(a: seq<string>)
    ensures Merge(a, [], a)
    decreases |a|
  {
    if a != [] {
      MergeRest(a[1..]);
    }
  }

  /** The two lists together are one longer than the input exactly when the
      made-up "" was added. */
  lemma {:induction false} SplitLength(defs: seq<FlagDef>, args: seq<string>, i: nat)
    requires i <= |args|
    ensures |TestFrom(defs, args, i)| + |RestFrom(defs, args, i)| == |args| - i + (if Padded(defs, args, i) then 1 else 0)
    decreases |args| - i
  {
    if i < |args| && !EndsScan(args[i]) {
      SplitLength(defs, args, i + Width(defs, args, i));
    }
  }

  /** `benchinit -count=3 ./foo`. */
  lemma SplitExample()
    ensures TestFrom(TestFlagDefn, ["-count=3", "./foo"], 0) == ["-count=3"]
    ensures RestFrom(TestFlagDefn, ["-count=3", "./foo"], 0) == ["./foo"]
  {
    TableWellFormed();
    var args := ["-count=3", "./foo"];
    assert TestFlagDefn[14].name == "count";
    assert args[0] == "-" + "count" + "=" + "3";
    AssignmentVerbatim(TestFlagDefn, args, 0, "count", "3");
    assert args[1][0] != '-';
  }
}
