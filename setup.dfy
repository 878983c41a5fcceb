/** What benchinit does around the generated files: `setup` writes a
    benchmark file and a stub file next to each package and returns the
    cleanup that deletes them, `benchmark` builds the `go test` command line,
    and `main1` ties the steps together and picks the exit code. File system
    calls, the template engine and the `go` command are oracles: each call
    is told whether it succeeds. */
module Harness {

  import opened Sequences
  import opened TestFlags
  import opened Walker
  import opened Layout

  const BenchFile := "benchinit_generated_test.go"
  const StubFile := "benchinit_generated_stub.go"

  /** A loaded package: its import path, its non-test Go files and the
      objects of its scope, in the order of their sorted names. */
  datatype Package = Package(path: string, goFiles: seq<string>, scope: seq<Object>)

  // ----- paths -----

  /** The index of the last '/' in `path`, or -1. */
  function LastSlash(path: string): (k: int)
    ensures -1 <= k < |path|
    ensures k >= 0 ==> path[k] == '/'
    ensures forall j :: k < j < |path| ==> path[j] != '/'
  {
    if path == [] then -1
    else if path[|path| - 1] == '/' then |path| - 1
    else LastSlash(path[..|path| - 1])
  }

  /** The directory of a file path: what comes before its last '/'. */
  function Dir(path: string): string
  {
    var k := LastSlash(path);
    if k == -1 then "." else if k == 0 then "/" else path[..k]
  }

  /** A file name placed in a directory. */
  function Join(dir: string, name: string): string
  {
    if dir == "." then name else if dir == "/" then "/" + name else dir + "/" + name
  }

  /** The two generated files of a directory are different files. */
  lemma GeneratedFilesDiffer(dir: string)
    ensures Join(dir, BenchFile) != Join(dir, StubFile)
  {
    var p := if dir == "." then "" else if dir == "/" then "/" else dir + "/";
    assert Join(dir, BenchFile) == p + BenchFile && Join(dir, StubFile) == p + StubFile;
    assert (p + BenchFile)[|p| + 20] == 't' && (p + StubFile)[|p| + 20] == 's';
  }

  // ----- the file system -----

  /** How writing one generated file goes: os.Create fails; the file is
      created but the template or the final Close fails; or all succeed. */
  datatype WriteOutcome = CreateFails | ExecuteFails | CloseFails | Written

  /** The files that exist. */
  class Disk {
    var files: set<string>

    constructor (files0: set<string>)
      ensures files == files0
    {
      files := files0;
    }

    /** templateFile: os.Create (which truncates a file that exists), then
        the template, then Close. The file exists afterwards unless the
        creation failed; the call succeeds only when every step did. */
    method TemplateFile(path: string, outcome: WriteOutcome) returns (ok: bool)
      modifies this
      ensures files == if outcome == CreateFails then old(files) else old(files) + {path}
      ensures ok <==> outcome == Written
    {
      if outcome == CreateFails {
        return false;
      }
      files := files + {path};
      ok := outcome == Written;
    }

    /** os.Remove: fails when the file does not exist. */
    method Remove(path: string) returns (ok: bool)
      modifies this
      ensures ok <==> path in old(files)
      ensures files == old(files) - {path}
    {
      ok := path in files;
      files := files - {path};
    }
  }

  // ----- setup -----

  /** The data handed to the templates. */
  datatype TmplData = TmplData(inits: seq<string>, toZero: seq<ToZero>)

  /** What `setup` returns: a panic ("field not found"), or the list its
      cleanup deletes, whether it succeeded, and the template data. */
  datatype SetupResult =
    | Panic(message: string)
    | Done(toDelete: seq<string>, ok: bool, data: TmplData)

  function BenchPath(pkg: Package): string
    requires pkg.goFiles != []
  {
    Join(Dir(pkg.goFiles[0]), BenchFile)
  }

  function StubPath(pkg: Package): string
    requires pkg.goFiles != []
  {
    Join(Dir(pkg.goFiles[0]), StubFile)
  }

  predicate Loadable(g: Graph, pkg: Package) {
    Closed(g) && pkg.path in g && ValidScope(pkg.scope)
  }

  /** The result of `setup` for `pkg`, given how the two writes go. */
  function SetupPlan(g: Graph, recursive: bool, pkg: Package, bench: WriteOutcome, stub: WriteOutcome): SetupResult
    requires Loadable(g, pkg)
  {
    if pkg.goFiles == [] then Done([], true, TmplData([], []))
    else match ToZeroAll(pkg.path, pkg.scope)
      case Failure(e) => Panic(e)
      case Success(zs) =>
        var data := TmplData(Inits(g, pkg.path, recursive), zs);
        if bench != Written then Done([], false, data)
        else if stub != Written then Done([BenchPath(pkg)], false, data)
        else Done([BenchPath(pkg), StubPath(pkg)], true, data)
  }

  /** The files `setup` leaves on disk, deleted by its cleanup or not. */
  function Created(pkg: Package, bench: WriteOutcome, stub: WriteOutcome): set<string>
  {
    if pkg.goFiles == [] then {}
    else
      (if bench != CreateFails then {BenchPath(pkg)} else {}) +
      (if bench == Written && stub != CreateFails then {StubPath(pkg)} else {})
  }

  /** `setup`. The cleanup it returns is represented by the list of paths
      that cleanup deletes. */
  method Setup(disk: Disk, g: Graph, recursive: bool, pkg: Package, benchW: WriteOutcome, stubW: WriteOutcome)
    returns (res: SetupResult)
    requires Loadable(g, pkg)
    modifies disk
    ensures res == SetupPlan(g, recursive, pkg, benchW, stubW)
    ensures disk.files == old(disk.files) + (if res.Done? then Created(pkg, benchW, stubW) else {})
  {
    if |pkg.goFiles| == 0 {
      // no init work to benchmark
      return Done([], true, TmplData([], []));
    }
    var toDelete: seq<string> := [];
    var dir := Dir(pkg.goFiles[0]);
    var inits := CollectInits(g, pkg.path, recursive);
    var toZero := CollectToZero(pkg.path, pkg.scope);
    if toZero.Failure? {
      return Panic(toZero.error);
    }
    var data := TmplData(inits, toZero.value);

    var bench := Join(dir, BenchFile);
    var ok := disk.TemplateFile(bench, benchW);
    if !ok {
      return Done(toDelete, false, data);
    }
    toDelete := toDelete + [bench];

    var stub := Join(dir, StubFile);
    ok := disk.TemplateFile(stub, stubW);
    if !ok {
      return Done(toDelete, false, data);
    }
    toDelete := toDelete + [stub];
    return Done(toDelete, true, data);
  }

  /** `setup`'s bookkeeping: without Go files nothing is written or deleted;
      otherwise each generated file enters the cleanup list only once it is
      written, so a failed bench file leaves the list empty and a failed stub
      file leaves just the bench file; every listed path was created. */
  lemma SetupPlanMeaning(g: Graph, recursive: bool, pkg: Package, bench: WriteOutcome, stub: WriteOutcome)
    requires Loadable(g, pkg)
    ensures var r := SetupPlan(g, recursive, pkg, bench, stub);
      pkg.goFiles == [] ==> r == Done([], true, TmplData([], []))
    ensures var r := SetupPlan(g, recursive, pkg, bench, stub);
      pkg.goFiles != [] ==>
        (r.Panic? <==> exists k :: 0 <= k < |pkg.scope| && IsFlagSet(pkg.scope[k]) && !HasFormal(pkg.scope[k].fields)) &&
        (r.Done? ==>
          (r.ok <==> bench == Written && stub == Written) &&
          (bench != Written ==> r.toDelete == []) &&
          (bench == Written && stub != Written ==> r.toDelete == [BenchPath(pkg)]) &&
          (forall k :: 0 <= k < |r.toDelete| ==> r.toDelete[k] in Created(pkg, bench, stub)) &&
          r.data.inits == Inits(g, pkg.path, recursive))
  {
    if pkg.goFiles != [] {
      ToZeroAllMeaning(pkg.path, pkg.scope);
    }
  }

  /** A write that fails after its file was created leaves that file on
      disk, and the cleanup does not delete it. */
  lemma FailedWriteLeavesFile(g: Graph, recursive: bool, pkg: Package, stub: WriteOutcome)
    requires Loadable(g, pkg) && pkg.goFiles != [] && SetupPlan(g, recursive, pkg, ExecuteFails, stub).Done?
    ensures BenchPath(pkg) in Created(pkg, ExecuteFails, stub)
    ensures SetupPlan(g, recursive, pkg, ExecuteFails, stub).toDelete == []
  {
  }

  // ----- cleanup -----

  /** The files left after the cleanup loop over `toDelete` and whether it
      panicked: it stops at the first path that cannot be removed. */
  function CleanupRun(files: set<string>, toDelete: seq<string>): (set<string>, bool)
  {
    if toDelete == [] then (files, false)
    else if toDelete[0] !in files then (files, true)
    else CleanupRun(files - {toDelete[0]}, toDelete[1..])
  }

  /** The cleanup closure of `setup`. */
  method Cleanup(disk: Disk, toDelete: seq<string>) returns (panicked: bool)
    modifies disk
    ensures (disk.files, panicked) == CleanupRun(old(disk.files), toDelete)
  {
    var i := 0;
    while i < |toDelete|
      invariant 0 <= i <= |toDelete|
      invariant CleanupRun(old(disk.files), toDelete) == CleanupRun(disk.files, toDelete[i..])
    {
      assert toDelete[i..][0] == toDelete[i] && toDelete[i..][1..] == toDelete[i + 1..];
      ghost var before := disk.files;
      var ok := disk.Remove(toDelete[i]);
      if !ok {
        assert disk.files == before;
        return true;
      }
      i := i + 1;
    }
    return false;
  }

  /** The cleanup removes exactly the listed paths, in order, and succeeds
      exactly when each of them exists when its turn comes. */
  lemma {:induction false} CleanupMeaning(files: set<string>, toDelete: seq<string>)
    ensures !CleanupRun(files, toDelete).1 <==>
      forall k :: 0 <= k < |toDelete| ==> toDelete[k] in files && toDelete[k] !in toDelete[..k]
    ensures !CleanupRun(files, toDelete).1 ==>
      CleanupRun(files, toDelete).0 == files - set k | 0 <= k < |toDelete| :: toDelete[k]
    decreases |toDelete|
  {
    if toDelete != [] {
      var x, rest := toDelete[0], toDelete[1..];
      CleanupMeaning(files - {x}, rest);
      forall k | 1 <= k < |toDelete| ensures toDelete[k] == rest[k - 1] && toDelete[..k] == [x] + rest[..k - 1] { }
      assert toDelete[..0] == [];
      var all := set k | 0 <= k < |toDelete| :: toDelete[k];
      var later := set k | 0 <= k < |rest| :: rest[k];
      assert all == {x} + later by {
        forall y | y in all ensures y in {x} + later {
          var k :| 0 <= k < |toDelete| && toDelete[k] == y;
          if k > 0 { assert rest[k - 1] == y; }
        }
        forall y | y in later ensures y in all {
          var k :| 0 <= k < |rest| && rest[k] == y;
          assert toDelete[k + 1] == y;
        }
      }
    }
  }

  /** The paths the cleanup of a fully successful `setup` deletes. */
  function DeleteList(pkg: Package): seq<string>
  {
    if pkg.goFiles == [] then [] else [BenchPath(pkg), StubPath(pkg)]
  }

  /** A successful `setup` lists for deletion exactly the files it wrote. */
  lemma WrittenDeleteList(g: Graph, recursive: bool, pkg: Package)
    requires Loadable(g, pkg) && SetupPlan(g, recursive, pkg, Written, Written).Done?
    ensures SetupPlan(g, recursive, pkg, Written, Written).toDelete == DeleteList(pkg)
    ensures SetupPlan(g, recursive, pkg, Written, Written).ok
    ensures pkg.goFiles != [] ==> Created(pkg, Written, Written) == {BenchPath(pkg), StubPath(pkg)}
  {
  }

  /** The list a successful cleanup deletes holds each written file once. */
  lemma DeleteListFacts(pkg: Package)
    ensures Elems(DeleteList(pkg)) == Created(pkg, Written, Written) && Distinct(DeleteList(pkg))
  {
    if pkg.goFiles != [] {
      GeneratedFilesDiffer(Dir(pkg.goFiles[0]));
    }
  }

  /** Deleting the files of a successful `setup` from a disk that did not
      hold them before gives back that disk. */
  lemma CleanupUndoesSetup(rest: set<string>, pkg: Package)
    requires Created(pkg, Written, Written) !! rest
    ensures CleanupRun(rest + Created(pkg, Written, Written), DeleteList(pkg)) == (rest, false)
  {
    if pkg.goFiles != [] {
      var b, s := BenchPath(pkg), StubPath(pkg);
      GeneratedFilesDiffer(Dir(pkg.goFiles[0]));
      var after := rest + Created(pkg, Written, Written);
      assert Created(pkg, Written, Written) == {b} + {s};
      assert [b, s][1..] == [s] && [s][1..] == [];
      assert b in after && s in after - {b};
      assert CleanupRun(after, [b, s]) == CleanupRun(after - {b} - {s}, []);
      assert after - {b} - {s} == rest;
    } else {
      assert rest + Created(pkg, Written, Written) == rest;
    }
  }

  /** When the generated files did not exist before, a successful setup
      followed by its cleanup gives back the files there were. */
  lemma SetupThenCleanupRestores(files: set<string>, g: Graph, recursive: bool, pkg: Package)
    requires Loadable(g, pkg) && SetupPlan(g, recursive, pkg, Written, Written).Done?
    requires Created(pkg, Written, Written) !! files
    ensures CleanupRun(files + Created(pkg, Written, Written), SetupPlan(g, recursive, pkg, Written, Written).toDelete)
      == (files, false)
  {
    WrittenDeleteList(g, recursive, pkg);
    CleanupUndoesSetup(files, pkg);
  }

  /** A file that already had the name of the generated benchmark file is
      overwritten by setup, and its cleanup then deletes it. */
  lemma SetupClobbersExistingFile(files: set<string>, g: Graph, recursive: bool, pkg: Package)
    requires Loadable(g, pkg) && pkg.goFiles != [] && SetupPlan(g, recursive, pkg, Written, Written).Done?
    requires BenchPath(pkg) in files && StubPath(pkg) !in files
    ensures CleanupRun(files + Created(pkg, Written, Written), SetupPlan(g, recursive, pkg, Written, Written).toDelete)
      == (files - {BenchPath(pkg)}, false)
  {
    var b := BenchPath(pkg);
    WrittenDeleteList(g, recursive, pkg);
    CleanupUndoesSetup(files - {b}, pkg);
    assert files + Created(pkg, Written, Written) == (files - {b}) + Created(pkg, Written, Written);
  }

  /** Running a cleanup a second time panics, since its first path is gone. */
  lemma SecondCleanupPanics(files: set<string>, toDelete: seq<string>)
    requires toDelete != [] && !CleanupRun(files, toDelete).1
    ensures CleanupRun(CleanupRun(files, toDelete).0, toDelete).1
  {
    CleanupMeaning(files, toDelete);
  }

  // ----- benchmark -----

  /** The fixed head of the `go test` command line. */
  const TestPrefix := ["test", "-run=^$", "-vet=off", "-bench=^BenchmarkInit$"]

  function Paths(pkgs: seq<Package>): (ps: seq<string>)
    ensures |ps| == |pkgs| && forall k :: 0 <= k < |pkgs| ==> ps[k] == pkgs[k].path
  {
    if pkgs == [] then [] else Paths(pkgs[..|pkgs| - 1]) + [pkgs[|pkgs| - 1].path]
  }

  /** The arguments of `go` in `benchmark`: the fixed head, then the user's
      test flags, then every package path. */
  function BenchArgv(testflags: seq<string>, pkgs: seq<Package>): seq<string>
  {
    TestPrefix + testflags + Paths(pkgs)
  }

  /** The argument loop of `benchmark`. */
  method BuildBenchArgs(pkgs: seq<Package>, testflags: seq<string>) returns (args: seq<string>)
    ensures args == BenchArgv(testflags, pkgs)
  {
    args := TestPrefix;
    args := args + testflags;
    ghost var head := args;
    var i := 0;
    while i < |pkgs|
      invariant 0 <= i <= |pkgs|
      invariant args == head + Paths(pkgs[..i])
    {
      assert pkgs[..i + 1][..i] == pkgs[..i];
      Assoc(head, Paths(pkgs[..i]), [pkgs[i].path]);
      args := args + [pkgs[i].path];
      i := i + 1;
    }
    assert pkgs[..i] == pkgs;
  }

  /** The command line runs only BenchmarkInit, without tests or vet, passes
      the test flags on unchanged and in order, and ends with one path per
      package. */
  lemma BenchArgvLayout(testflags: seq<string>, pkgs: seq<Package>)
    ensures var a := BenchArgv(testflags, pkgs);
      |a| == 4 + |testflags| + |pkgs| &&
      a[..4] == TestPrefix &&
      a[4..4 + |testflags|] == testflags &&
      forall k :: 0 <= k < |pkgs| ==> a[4 + |testflags| + k] == pkgs[k].path
  {
    var a := BenchArgv(testflags, pkgs);
    assert a[..4] == TestPrefix;
    assert a[4..4 + |testflags|] == testflags;
  }

  // ----- main1 -----

  /** How flagSet.Parse handles the arguments lazyFlagParse left over: it
      fails (a bad flag, or -h), or it sets -r. The remaining arguments are
      the patterns handed to packages.Load, which is an oracle here. */
  datatype ParseOutcome = ParseFailed | Parsed(recursive: bool)

  /** What packages.Load gives: an error, or the packages together with the
      number of package errors PrintErrors reports. */
  datatype LoadOutcome = LoadFailed | Loaded(pkgs: seq<Package>, errors: nat)

  /** Why the setup loop of main1 stopped: it did not; a setup returned an
      error; a setup panicked. */
  datatype Stop = Continue | SetupError | SetupPanic

  /** The state of main1 after some rounds of its setup loop: the files on
      disk, the deferred cleanups in the order they were deferred, and
      whether the loop stopped. */
  datatype SetupLoop = SetupLoop(files: set<string>, cleanups: seq<seq<string>>, stop: Stop)

  type Writes = seq<(WriteOutcome, WriteOutcome)>

  predicate AllLoadable(g: Graph, pkgs: seq<Package>) {
    forall k :: 0 <= k < |pkgs| ==> Loadable(g, pkgs[k])
  }

  /** A setup that returned without error. */
  predicate Succeeded(r: SetupResult) {
    r.Done? && r.ok
  }

  /** What `setup` returns for each package; `writes[k]` says how the two
      writes of package `k` go. */
  function Setups(g: Graph, recursive: bool, pkgs: seq<Package>, writes: Writes): (rs: seq<SetupResult>)
    requires |pkgs| == |writes| && AllLoadable(g, pkgs)
    ensures |rs| == |pkgs|
    ensures forall k :: 0 <= k < |pkgs| ==> rs[k] == SetupPlan(g, recursive, pkgs[k], writes[k].0, writes[k].1)
  {
    if pkgs == [] then []
    else
      var n := |pkgs| - 1;
      Setups(g, recursive, pkgs[..n], writes[..n]) + [SetupPlan(g, recursive, pkgs[n], writes[n].0, writes[n].1)]
  }

  /** The files each `setup` writes, whether it succeeds or not. */
  function Creations(pkgs: seq<Package>, writes: Writes): (cs: seq<set<string>>)
    requires |pkgs| == |writes|
    ensures |cs| == |pkgs|
    ensures forall k :: 0 <= k < |pkgs| ==> cs[k] == Created(pkgs[k], writes[k].0, writes[k].1)
  {
    if pkgs == [] then []
    else
      var n := |pkgs| - 1;
      Creations(pkgs[..n], writes[..n]) + [Created(pkgs[n], writes[n].0, writes[n].1)]
  }

  /** The first `n` rounds of the setup loop, given what each `setup`
      returns and which files it writes: each round defers the cleanup of a setup that returned, and
      ends the loop on an error or a panic. */
  function SetupsUpTo(rs: seq<SetupResult>, created: seq<set<string>>, files: set<string>, n: nat): SetupLoop
    requires n <= |rs| == |created|
  {
    if n == 0 then SetupLoop(files, [], Continue)
    else
      var st := SetupsUpTo(rs, created, files, n - 1);
      if st.stop != Continue then st
      else match rs[n - 1]
        case Panic(_) => SetupLoop(st.files, st.cleanups, SetupPanic)
        case Done(toDelete, ok, _) =>
          SetupLoop(st.files + created[n - 1], st.cleanups + [toDelete],
                    if ok then Continue else SetupError)
  }

  /** The deferred cleanups run when main1 returns or panics, the last
      deferred first; a panicking cleanup does not keep the earlier ones
      from running. The result is the files left and whether any panicked. */
  function CleanupAll(files: set<string>, cleanups: seq<seq<string>>): (set<string>, bool)
    decreases |cleanups|
  {
    if cleanups == [] then (files, false)
    else
      var last := CleanupRun(files, cleanups[|cleanups| - 1]);
      var earlier := CleanupAll(last.0, cleanups[..|cleanups| - 1]);
      (earlier.0, last.1 || earlier.1)
  }

  /** The setup loop of main1 run over every package. */
  function AllSetups(g: Graph, recursive: bool, pkgs: seq<Package>, writes: Writes, files: set<string>): SetupLoop
    requires |pkgs| == |writes| && AllLoadable(g, pkgs)
  {
    SetupsUpTo(Setups(g, recursive, pkgs, writes), Creations(pkgs, writes), files, |pkgs|)
  }

  /** Whether one of the cleanups deferred by the setup loop panics. */
  predicate CleanupPanics(st: SetupLoop) {
    CleanupAll(st.files, st.cleanups).1
  }

  /** Setup `k` is the first one that does not succeed. */
  predicate FirstFailure(rs: seq<SetupResult>, k: int) {
    0 <= k < |rs| && !Succeeded(rs[k]) && forall j :: 0 <= j < k ==> Succeeded(rs[j])
  }

  /** The exit code of the process, whether `go test` was run and with
      which arguments, and the files left afterwards. */
  datatype Outcome = Outcome(code: int, ran: bool, command: seq<string>, files: set<string>)

  predicate Consistent(load: LoadOutcome, g: Graph, writes: Writes) {
    load.Loaded? ==> |writes| == |load.pkgs| && AllLoadable(g, load.pkgs)
  }

  /** main1 run on `args`: a failed flag parse exits with 2, a failed load
      or any package error with 1; otherwise the setups run until the first
      one fails, `go test` runs only when all of them succeeded, and the
      deferred cleanups run last. A panic, in a setup or in a cleanup,
      exits with 2. */
  function Main1Plan(args: seq<string>, parse: ParseOutcome, load: LoadOutcome, g: Graph,
                     writes: Writes, runOk: bool, files: set<string>): Outcome
    requires Consistent(load, g, writes)
  {
    if parse.ParseFailed? then Outcome(2, false, [], files)
    else if load.LoadFailed? || load.errors > 0 then Outcome(1, false, [], files)
    else
      var st := AllSetups(g, parse.recursive, load.pkgs, writes, files);
      var ran := st.stop == Continue;
      var end := CleanupAll(st.files, st.cleanups);
      var code := if st.stop == SetupPanic || end.1 then 2 else if ran && runOk then 0 else 1;
      Outcome(code, ran, if ran then BenchArgv(TestFrom(TestFlagDefn, args, 0), load.pkgs) else [], end.0)
  }

  /** Once the setup loop has stopped, later rounds change nothing. */
  lemma {:induction false} StoppedStays(rs: seq<SetupResult>, created: seq<set<string>>, files: set<string>, n: nat, m: nat)
    requires n <= m <= |rs| == |created|
    requires n == m || SetupsUpTo(rs, created, files, n).stop != Continue
    ensures SetupsUpTo(rs, created, files, m) == SetupsUpTo(rs, created, files, n)
    decreases m
  {
    if n < m {
      StoppedStays(rs, created, files, n, m - 1);
    }
  }

  /** The setup loop of `main1`. */
  method RunSetups(disk: Disk, g: Graph, recursive: bool, pkgs: seq<Package>, writes: Writes)
    returns (cleanups: seq<seq<string>>, stop: Stop)
    requires |pkgs| == |writes| && AllLoadable(g, pkgs)
    modifies disk
    ensures SetupLoop(disk.files, cleanups, stop)
      == SetupsUpTo(Setups(g, recursive, pkgs, writes), Creations(pkgs, writes), old(disk.files), |pkgs|)
  {
    ghost var rs := Setups(g, recursive, pkgs, writes);
    ghost var created := Creations(pkgs, writes);
    cleanups := [];
    stop := Continue;
    var i := 0;
    while i < |pkgs| && stop == Continue
      invariant 0 <= i <= |pkgs|
      invariant SetupsUpTo(rs, created, old(disk.files), i) == SetupLoop(disk.files, cleanups, stop)
    {
      var res := Setup(disk, g, recursive, pkgs[i], writes[i].0, writes[i].1);
      if res.Panic? {
        stop := SetupPanic;
      } else {
        // defer cleanup()
        cleanups := cleanups + [res.toDelete];
        if !res.ok {
          stop := SetupError;
        }
      }
      i := i + 1;
    }
    StoppedStays(rs, created, old(disk.files), i, |pkgs|);
  }

  /** The deferred cleanups, run last first. */
  method RunDeferred(disk: Disk, cleanups: seq<seq<string>>) returns (panicked: bool)
    modifies disk
    ensures (disk.files, panicked) == CleanupAll(old(disk.files), cleanups)
  {
    panicked := false;
    var j := |cleanups|;
    assert cleanups[..j] == cleanups;
    while j > 0
      invariant 0 <= j <= |cleanups|
      invariant CleanupAll(old(disk.files), cleanups).0 == CleanupAll(disk.files, cleanups[..j]).0
      invariant CleanupAll(old(disk.files), cleanups).1 == (CleanupAll(disk.files, cleanups[..j]).1 || panicked)
    {
      assert cleanups[..j][..j - 1] == cleanups[..j - 1];
      var p := Cleanup(disk, cleanups[j - 1]);
      panicked := panicked || p;
      j := j - 1;
    }
  }

  /** `main1`. `runOk` says whether `go test` succeeds. */
  method Main1(disk: Disk, args: seq<string>, parse: ParseOutcome, load: LoadOutcome, g: Graph,
               writes: Writes, runOk: bool)
    returns (code: int, ran: bool, command: seq<string>)
    requires Consistent(load, g, writes)
    modifies disk
    ensures Outcome(code, ran, command, disk.files) == Main1Plan(args, parse, load, g, writes, runOk, old(disk.files))
  {
    var testflags, rest := LazyFlagParse(TestFlagDefn, args);
    if parse.ParseFailed? {
      return 2, false, [];
    }
    if load.LoadFailed? || load.errors > 0 {
      return 1, false, [];
    }
    var pkgs := load.pkgs;
    var cleanups, stop := RunSetups(disk, g, parse.recursive, pkgs, writes);
    ran := stop == Continue;
    command := [];
    var benchOk := false;
    if ran {
      command := BuildBenchArgs(pkgs, testflags);
      benchOk := runOk;
    }
    var panicked := RunDeferred(disk, cleanups);
    code := if stop == SetupPanic || panicked then 2 else if benchOk then 0 else 1;
  }

  /** Which setups the loop ran: every deferred cleanup is the one of a
      setup that returned, in package order; the loop runs to the end
      exactly when every setup succeeds, and otherwise stops at the first
      setup that returns an error (whose cleanup is still deferred) or
      panics (which defers nothing). */
  lemma {:induction false} SetupsMeaning(rs: seq<SetupResult>, created: seq<set<string>>, files: set<string>, n: nat)
    requires n <= |rs| == |created|
    ensures var st := SetupsUpTo(rs, created, files, n);
      var c := |st.cleanups|;
      c <= n &&
      (forall k :: 0 <= k < c ==> rs[k].Done? && st.cleanups[k] == rs[k].toDelete) &&
      (st.stop == Continue <==> forall k :: 0 <= k < n ==> Succeeded(rs[k])) &&
      (st.stop == Continue ==> c == n) &&
      (st.stop == SetupError ==> 0 < c && !Succeeded(rs[c - 1]) && forall k :: 0 <= k < c - 1 ==> Succeeded(rs[k])) &&
      (st.stop == SetupPanic ==> c < n && rs[c].Panic? && forall k :: 0 <= k < c ==> Succeeded(rs[k]))
  {
    if n > 0 {
      SetupsMeaning(rs, created, files, n - 1);
    }
  }

  /** What main1 promises: `go test` runs exactly when the flags parse, the
      packages load without errors and every setup succeeds, and then with
      the user's test flags and every package. It exits with 0 only when
      that run succeeds. Otherwise it exits with 2 for bad flags, a setup
      panic or a cleanup panic, and with 1 for a load error, a setup that
      returns an error, or a failed `go test`. */
  lemma Main1Meaning(args: seq<string>, parse: ParseOutcome, load: LoadOutcome, g: Graph,
                     writes: Writes, runOk: bool, files: set<string>)
    requires Consistent(load, g, writes)
    ensures var o := Main1Plan(args, parse, load, g, writes, runOk, files);
      (o.ran <==> parse.Parsed? && load.Loaded? && load.errors == 0 &&
                  forall k :: 0 <= k < |load.pkgs| ==>
                    Succeeded(SetupPlan(g, parse.recursive, load.pkgs[k], writes[k].0, writes[k].1))) &&
      (o.ran ==> o.command == BenchArgv(TestFrom(TestFlagDefn, args, 0), load.pkgs)) &&
      (!o.ran ==> o.command == []) &&
      (o.code == 0 ==> o.ran && runOk) &&
      (parse.ParseFailed? ==> o.code == 2 && o.files == files) &&
      (parse.Parsed? && (load.LoadFailed? || load.errors > 0) ==> o.code == 1 && o.files == files) &&
      (parse.Parsed? && load.Loaded? && load.errors == 0 ==>
        var rs := Setups(g, parse.recursive, load.pkgs, writes);
        var panics := CleanupPanics(AllSetups(g, parse.recursive, load.pkgs, writes, files));
        ((exists k :: FirstFailure(rs, k) && rs[k].Panic?) ==> o.code == 2) &&
        ((exists k :: FirstFailure(rs, k) && rs[k].Done?) ==> o.code == (if panics then 2 else 1)) &&
        (o.ran ==> o.code == (if panics then 2 else if runOk then 0 else 1)))
  {
    if parse.Parsed? && load.Loaded? && load.errors == 0 {
      var rs := Setups(g, parse.recursive, load.pkgs, writes);
      var st := AllSetups(g, parse.recursive, load.pkgs, writes, files);
      SetupsMeaning(rs, Creations(load.pkgs, writes), files, |load.pkgs|);
      forall k | FirstFailure(rs, k)
        ensures st.stop == (if rs[k].Panic? then SetupPanic else SetupError)
      {
        var c := |st.cleanups|;
        if st.stop == SetupError {
          assert FirstFailure(rs, c - 1);
          FirstFailureUnique(rs, k, c - 1);
        } else if st.stop == SetupPanic {
          assert FirstFailure(rs, c);
          FirstFailureUnique(rs, k, c);
        }
      }
    }
  }

  /** There is at most one first failure. */
  lemma FirstFailureUnique(rs: seq<SetupResult>, k: int, m: int)
    requires FirstFailure(rs, k) && FirstFailure(rs, m)
    ensures k == m
  {
  }

  /** The paths of a list, as a set. */
  function Elems(l: seq<string>): set<string> {
    set x | x in l
  }

  predicate Distinct(l: seq<string>) {
    forall i, j :: 0 <= i < j < |l| ==> l[i] != l[j]
  }

  /** Every path in any of the lists. */
  function Union(lists: seq<seq<string>>): set<string>
    decreases |lists|
  {
    if lists == [] then {} else Union(lists[..|lists| - 1]) + Elems(lists[|lists| - 1])
  }

  /** Lists of new paths: none was on disk, none appears twice. */
  predicate FreshLists(lists: seq<seq<string>>, files: set<string>) {
    (forall k :: 0 <= k < |lists| ==> Distinct(lists[k]) && Elems(lists[k]) !! files) &&
    (forall j, k :: 0 <= j < k < |lists| ==> Elems(lists[j]) !! Elems(lists[k]))
  }

  predicate AllWritten(writes: Writes) {
    forall k :: 0 <= k < |writes| ==> writes[k] == (Written, Written)
  }

  /** No generated file existed before, and no two packages share one. */
  predicate FreshGenerated(pkgs: seq<Package>, files: set<string>) {
    (forall k :: 0 <= k < |pkgs| ==> Created(pkgs[k], Written, Written) !! files) &&
    (forall j, k :: 0 <= j < k < |pkgs| ==> Created(pkgs[j], Written, Written) !! Created(pkgs[k], Written, Written))
  }

  /** A cleanup whose paths are distinct and were all added to `rest`
      removes them and nothing else, without panicking. */
  lemma CleanupListRestores(rest: set<string>, l: seq<string>)
    requires Distinct(l) && Elems(l) !! rest
    ensures CleanupRun(rest + Elems(l), l) == (rest, false)
  {
    CleanupMeaning(rest + Elems(l), l);
    forall k | 0 <= k < |l| ensures l[k] !in l[..k] {
      forall i | 0 <= i < k ensures l[..k][i] != l[k] { }
    }
    assert (set k | 0 <= k < |l| :: l[k]) == Elems(l);
    assert rest + Elems(l) - Elems(l) == rest;
  }

  lemma {:induction false} UnionPrefixDisjoint(lists: seq<seq<string>>, files: set<string>, n: nat, m: nat)
    requires n <= m < |lists| && FreshLists(lists, files)
    ensures Elems(lists[m]) !! files + Union(lists[..n])
    decreases n
  {
    if n > 0 {
      UnionPrefixDisjoint(lists, files, n - 1, m);
      assert lists[..n][..n - 1] == lists[..n - 1];
    } else {
      assert files + Union(lists[..0]) == files;
    }
  }

  /** When every setup succeeds, the loop runs to the end, defers every
      cleanup, and leaves on disk exactly the files the cleanups list. */
  lemma {:induction false} SucceededSetups(rs: seq<SetupResult>, created: seq<set<string>>, files: set<string>, n: nat)
    requires n <= |rs| == |created|
    requires forall k :: 0 <= k < |rs| ==> rs[k].Done? && rs[k].ok && Elems(rs[k].toDelete) == created[k]
    ensures var st := SetupsUpTo(rs, created, files, n);
      st.stop == Continue && |st.cleanups| == n &&
      (forall k :: 0 <= k < n ==> st.cleanups[k] == rs[k].toDelete) &&
      st.files == files + Union(st.cleanups)
  {
    if n > 0 {
      SucceededSetups(rs, created, files, n - 1);
      var st := SetupsUpTo(rs, created, files, n - 1);
      assert (st.cleanups + [rs[n - 1].toDelete])[..n - 1] == st.cleanups;
    } else {
      assert files + Union([]) == files;
    }
  }

  /** The deferred cleanups of fully successful setups, run last first,
      remove every listed file and nothing else. */
  lemma {:induction false} CleanupAllRestores(files: set<string>, cleanups: seq<seq<string>>)
    requires FreshLists(cleanups, files)
    ensures CleanupAll(files + Union(cleanups), cleanups) == (files, false)
    decreases |cleanups|
  {
    if cleanups != [] {
      var n := |cleanups|;
      var init, last := cleanups[..n - 1], cleanups[n - 1];
      UnionPrefixDisjoint(cleanups, files, n - 1, n - 1);
      CleanupListRestores(files + Union(init), last);
      assert files + Union(cleanups) == (files + Union(init)) + Elems(last);
      CleanupAllRestores(files, init);
    } else {
      assert files + Union([]) == files;
    }
  }

  /** With every write succeeding and no panic, every setup succeeds and
      lists its two files for deletion. */
  lemma WrittenSetups(g: Graph, recursive: bool, pkgs: seq<Package>, writes: Writes)
    requires |writes| == |pkgs| && AllLoadable(g, pkgs) && AllWritten(writes)
    requires forall k :: 0 <= k < |pkgs| ==> SetupPlan(g, recursive, pkgs[k], Written, Written).Done?
    ensures var rs := Setups(g, recursive, pkgs, writes);
      forall k :: 0 <= k < |pkgs| ==>
        rs[k].Done? && rs[k].ok && rs[k].toDelete == DeleteList(pkgs[k]) &&
        Elems(rs[k].toDelete) == Created(pkgs[k], writes[k].0, writes[k].1)
  {
    var rs := Setups(g, recursive, pkgs, writes);
    forall k | 0 <= k < |pkgs|
      ensures rs[k].Done? && rs[k].ok && rs[k].toDelete == DeleteList(pkgs[k])
      ensures Elems(rs[k].toDelete) == Created(pkgs[k], writes[k].0, writes[k].1)
    {
      assert writes[k] == (Written, Written);
      WrittenDeleteList(g, recursive, pkgs[k]);
      DeleteListFacts(pkgs[k]);
    }
  }

  /** The deletion lists of packages whose generated files are new and
      distinct are fresh. */
  lemma FreshDeleteLists(pkgs: seq<Package>, files: set<string>, cleanups: seq<seq<string>>)
    requires |cleanups| == |pkgs| && FreshGenerated(pkgs, files)
    requires forall k :: 0 <= k < |pkgs| ==> cleanups[k] == DeleteList(pkgs[k])
    ensures FreshLists(cleanups, files)
  {
    forall k | 0 <= k < |pkgs| ensures Elems(cleanups[k]) == Created(pkgs[k], Written, Written) && Distinct(cleanups[k]) {
      DeleteListFacts(pkgs[k]);
    }
  }

  /** A successful run leaves the directories as it found them: when the
      generated files are new and every setup succeeds, `go test` runs and
      the cleanups delete exactly what was written. */
  lemma Main1Restores(args: seq<string>, recursive: bool, pkgs: seq<Package>, g: Graph,
                      writes: Writes, runOk: bool, files: set<string>)
    requires |writes| == |pkgs| && AllLoadable(g, pkgs) && AllWritten(writes) && FreshGenerated(pkgs, files)
    requires forall k :: 0 <= k < |pkgs| ==> SetupPlan(g, recursive, pkgs[k], Written, Written).Done?
    ensures var o := Main1Plan(args, Parsed(recursive), Loaded(pkgs, 0), g, writes, runOk, files);
      o.files == files && o.ran && o.code == (if runOk then 0 else 1)
  {
    var rs := Setups(g, recursive, pkgs, writes);
    WrittenSetups(g, recursive, pkgs, writes);
    var created := Creations(pkgs, writes);
    SucceededSetups(rs, created, files, |pkgs|);
    var st := SetupsUpTo(rs, created, files, |pkgs|);
    FreshDeleteLists(pkgs, files, st.cleanups);
    CleanupAllRestores(files, st.cleanups);
  }
}
