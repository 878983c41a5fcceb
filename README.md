# benchinit, modelled in Dafny

benchinit measures how long the `init` work of Go packages takes. For each
package it writes two generated files into the package's directory: a
benchmark file, whose `BenchmarkInit` calls the package's `init` and then a
`deinit` that undoes its effect, and an empty stub file. It then runs
`go test -run=^$ -vet=off -bench=^BenchmarkInit$` with the user's `go test`
flags, and deletes the generated files afterwards.

This project models the logic of `main.go` around those steps:

- `flags.dfy` (module `TestFlags`): the flag table `testFlagDefn` and
  `lazyFlagParse`. This function splits the command line into the flags
  passed on to `go test` and the rest left for benchinit's own flag set.
- `walker.dfy` (module `Walker`): the `packages.Visit` callback of `setup`.
  It collects the packages whose `initdone` byte is reset (`Inits`). It skips
  `runtime`, `testing`, `os/signal` and `time`, does not descend into them,
  and descends further only with `-r`.
- `layout.dfy` (module `Layout`): the `flag.FlagSet` branch of `setup`. For
  each package-level `flag.FlagSet` variable it finds the `formal` field and
  records the byte range to clear. A missing `formal` field panics.
- `reset.dfy` (module `Reset`): what the generated `deinit` does. It zeroes
  each recorded byte range and clears every `initdone` byte.
- `setup.dfy` (module `Harness`): the rest of the bookkeeping:
  - `setup` and the list of files its cleanup deletes;
  - the cleanup closure;
  - `templateFile` over a modelled set of files on disk;
  - the argument vector built by `benchmark`;
  - `main1`: its exit codes, the deferred cleanups, and running `go test`
    only when every setup succeeded.
- `sequences.dfy` (module `Sequences`): the associativity of sequence
  concatenation, used by the loop proofs.

The imperative parts keep their imperative form, each proved against a
specification function:
- the index loop of `lazyFlagParse` (`LazyFlagParse` against
  `TestFrom`/`RestFrom`);
- the visit (`CollectInits` against `Inits`);
- the field loop (`FindFormal`) and the scope loop (`CollectToZero`);
- the byte loops of `deinit` (`ZeroRange`, `Deinit`, on arrays);
- the files on disk, a `Disk` class whose `files` field `TemplateFile`,
  `Remove`, `Setup` and `Cleanup` update;
- the argument loop of `benchmark` (`BuildBenchArgs`);
- the loops of `main1` (`RunSetups`, `RunDeferred`, `Main1`).

Parts of the outside world are oracles given as parameters:
- the import graph and the package records that `packages.Load` produces;
- whether each file write succeeds;
- the result of `flagSet.Parse`;
- whether `go test` succeeds.

Where the code and its documentation disagree, the model follows the code
(the one exception is the size recorded for `formal`; see "## Findings"):
- `main1` returns at the first `setup` that fails, so later packages are not
  set up (main.go:53-59).
- A missing `formal` field panics, which exits with status 2 rather than 1
  (main.go:237-239).
- `templateFile` uses `os.Create`, which truncates a file that already
  exists. Its doc comment says it errors in that case (main.go:284-288).
  `SetupClobbersExistingFile` states what the code does.
- All cleanups are deferred until `main1` returns, and they run in reverse
  order (main.go:53-55).
- The flag table has 31 rows (main.go:69-107).

## Model

| member | source | states |
|---|---|---|
| TestFlags.TableWellFormed | main.go:69-107 | the 31 flag names are lower-case words and no name occurs twice, so the first-match scan does not depend on the order of the rows |
| TestFlags.LookupFlag | main.go:136-155 | the inner table loop returns the classification of the first row that matches (equal name, or name followed by `=`) |
| TestFlags.MatchFlagMeaning | main.go:136-155 | on a well-formed table the token is a boolean flag, a value-taking flag, a `name=value` assignment of a known name, or unknown, each if and only if the table has a matching row |
| TestFlags.DashNameIsFlag | main.go:132-137 | `-` followed by a table name does not end the scan, and the name compared against the table is that name |
| TestFlags.LazyFlagParse | main.go:128-160 | the index loop that advances past flag values returns exactly the testflags and rest of the left-to-right scan |
| TestFlags.BoolFlagAlone | main.go:137-142 | a known boolean flag goes to testflags on its own; rest is unaffected and the scan continues with the next token |
| TestFlags.ValueFlagTakesNext | main.go:143-149 | a known value-taking flag goes to testflags together with the token after it, and that token is not classified on its own |
| TestFlags.ValueFlagLast | main.go:143-149 | a value-taking flag in last position goes to testflags with the empty value `""` |
| TestFlags.AssignmentVerbatim | main.go:150-153 | `-name=value` for a known name goes to testflags verbatim |
| TestFlags.UnknownDashToRest | main.go:156-157 | a dash token that matches no row goes to rest, and scanning continues |
| TestFlags.StopTest | main.go:132-134 | no token from the first `""`, `--` or non-dash token on enters testflags |
| TestFlags.StopRest | main.go:132-134 | that stop token and every token after it are appended to rest unchanged and in order |
| TestFlags.SplitIsMerge | main.go:128-160 | the input, plus the made-up `""` when there is one, is an order-preserving merge of testflags and rest: every token lands in exactly one list, and each list keeps the input order |
| TestFlags.SplitLength | main.go:128-160 | the two lengths add up to the input length, or one more exactly when an empty value was made up |
| TestFlags.SplitExample | main.go:128-160 | `-count=3 ./foo` splits into `["-count=3"]` and `["./foo"]` |
| Walker.CollectInits | main.go:199-215 | the visit, with the callback appending to Inits, produces the pre-order walk `Inits` |
| Walker.WalkSkipsExcluded | main.go:201-207 | an excluded path is never recorded |
| Walker.WalkFresh | main.go:199-215 | no path is recorded twice, nor one visited before |
| Walker.FlatWalkFromStack | main.go:209-212 | without `-r` only the packages the walk starts from are recorded |
| Walker.WalkFollowsImports | main.go:199-215 | each recorded path is a starting package or is imported by a path recorded before it |
| Walker.WalkCloses | main.go:199-215 | with `-r` every import of a recorded package is recorded, unless it is excluded |
| Walker.InitsClean | main.go:200-209 | Inits holds no excluded path and no path twice |
| Walker.InitsReachable | main.go:199-215 | every entry of Inits is the root or is imported by an earlier entry, so it is reachable from the root without passing through an excluded package |
| Walker.InitsComplete | main.go:199-215 | with `-r` Inits holds the root (unless excluded) and every non-excluded import of each of its entries |
| Walker.FlatInits | main.go:209-212 | without `-r` Inits is exactly `[root]`, or empty for an excluded root |
| Walker.OnlyTimeImported | main.go:201-214 | with `-r` a root whose only import is `time` gives exactly `[root]` |
| Layout.AlignUp | main.go:240 | the aligned offset is the least multiple of the alignment not below the given offset |
| Layout.StructAlign | main.go:244 | the struct alignment is the largest field alignment: no field's alignment exceeds it, and it is the alignment of one of the fields, or 1 for a struct without fields |
| Layout.FieldsInOrder | main.go:240 | in the layout model no two fields overlap, and each ends before a later one starts |
| Layout.FieldWithinStruct | main.go:240-244 | every field lies within the size of the struct |
| Layout.FormalIndex | main.go:228-236 | the index is -1 exactly when no field is named `formal`, and otherwise the last field of that name |
| Layout.FindFormal | main.go:226-236 | the field loop leaves `index` at the last `formal` field (or -1) and `field` at the last field |
| Layout.RecordFlagSetAsWritten | main.go:226-247 | the FlagSet branch as written panics without `formal`, and otherwise records the offset of `formal` and the size of `field`, the last field the loop visited |
| Layout.RecordFlagSet | main.go:237-247 | the corrected FlagSet branch panics without `formal`, and otherwise records the offset and size of `formal` and the size of the variable |
| Layout.RecordMeaning | main.go:237-247 | the record fails with "field not found" if and only if there is no `formal` field; otherwise its offset and size are those of `formal`, and `Offset + ZeroSize <= TotalSize` |
| Layout.AsWrittenWithinStruct | main.go:240-246 | as written, the zeroed range still lies within the variable |
| Layout.RecordExample | main.go:240-247 | three 8-byte fields with `formal` in the middle give offset 8, size 8, total 24 |
| Layout.AsWrittenRecordsLastFieldSize | main.go:227-246 | as written, ZeroSize is the size of the last field (16) instead of that of `formal` (8) |
| Layout.CollectToZero | main.go:217-250 | the scope loop, with the corrected record, computes the ToZero list over the scope's objects in name order |
| Layout.ToZeroAllStops | main.go:237-239 | once a FlagSet without `formal` is met, the result is that panic whatever follows |
| Layout.ToZeroAllMeaning | main.go:217-250 | the list fails exactly when some FlagSet variable lacks `formal`; otherwise its k-th record is the layout of the `formal` field of the k-th FlagSet variable in scope order (its offset and size, and the variable's size), named after that variable, for this package, and within the variable |
| Layout.NoFlagSetNoRecord | main.go:223-248 | a scope without FlagSet variables records nothing |
| Reset.ZeroRange | main.go:347-349 | the byte loop sets exactly the bytes in `[Offset, Offset+ZeroSize)` to zero |
| Reset.Deinit | main.go:345-355 | deinit zeroes each recorded range of its own variable, changes no other byte, and clears every initdone byte |
| Reset.ZeroedMeaning | main.go:347-349 | a byte inside the range becomes zero and a byte outside keeps its value |
| Harness.LastSlash | main.go:194 | the result is the position of the last `/`, or -1 when there is none |
| Harness.GeneratedFilesDiffer | main.go:162-165 | the benchmark file and the stub file of a directory are different paths |
| Harness.Disk.TemplateFile | main.go:287-297 | the file exists afterwards unless its creation failed, and the call succeeds only when create, execute and close all succeed |
| Harness.Disk.Remove | main.go:181-185 | removing fails exactly when the file does not exist, and the file is gone afterwards |
| Harness.Setup | main.go:169-264 | setup computes the planned result and adds to the disk exactly the files it created |
| Harness.SetupPlanMeaning | main.go:169-264 | without Go files nothing is written or deleted. Otherwise: it panics exactly when a FlagSet lacks `formal`; it succeeds exactly when both writes do; a failed bench file leaves the cleanup list empty, and a failed stub file leaves `[bench]`; every listed path was created; and Inits is the walk from the package |
| Harness.FailedWriteLeavesFile | main.go:252-256 | a bench file that was created but whose template failed stays on disk, and its cleanup does not list it |
| Harness.Cleanup | main.go:179-187 | the cleanup loop removes the listed paths in order and stops with a panic at the first one missing |
| Harness.CleanupMeaning | main.go:179-187 | the cleanup does not panic if and only if each listed path exists and has not been listed before it; it then removes exactly the listed paths |
| Harness.WrittenDeleteList | main.go:252-263 | a setup whose writes all succeed lists the bench file and then the stub file, and succeeds |
| Harness.DeleteListFacts | main.go:252-263 | that list holds each written file exactly once |
| Harness.CleanupUndoesSetup | main.go:179-187 | deleting the files of a successful setup restores a disk that did not hold them |
| Harness.SetupThenCleanupRestores | main.go:179-263 | a successful setup followed by its cleanup leaves the files as they were, when the generated names were new |
| Harness.SetupClobbersExistingFile | main.go:252-256 | an existing file with the benchmark file's name is overwritten by setup and then deleted by its cleanup |
| Harness.SecondCleanupPanics | main.go:179-187 | running a cleanup a second time panics |
| Harness.Paths | main.go:274-276 | one package path per package, in order |
| Harness.BuildBenchArgs | main.go:266-276 | the append loop builds the fixed head, then the test flags, then the package paths |
| Harness.BenchArgvLayout | main.go:266-276 | the command line runs only BenchmarkInit, without tests or vet, passes the test flags unchanged and in order, and ends with one path per package |
| Harness.StoppedStays | main.go:52-59 | once a setup has failed, later packages change nothing |
| Harness.RunSetups | main.go:52-59 | the setup loop defers each returned cleanup and stops at the first error or panic |
| Harness.RunDeferred | main.go:53-55 | the deferred cleanups run last first, and all of them run even when one panics |
| Harness.Main1 | main.go:32-65 | main1 computes the modelled exit code, whether and how `go test` ran, and the files left on disk |
| Harness.SetupsMeaning | main.go:52-59 | each deferred cleanup belongs to a setup that returned, in package order. The loop runs to the end if and only if every setup succeeds; otherwise it stops at the first setup that returns an error (whose cleanup is still deferred) or that panics |
| Harness.Main1Meaning | main.go:32-65 | `go test` runs if and only if the flags parse, loading reports no errors and every setup succeeds, and then with the user's test flags and every package. A flag error exits with 2 and a load error with 1. When the first setup that fails panics, the exit code is 2; when it returns an error, the code is 1, or 2 if a deferred cleanup panics. When `go test` ran, the code is 0 if it succeeded and 1 if it failed, or 2 if a deferred cleanup panics. So exit code 0 means `go test` ran and succeeded |
| Harness.CleanupListRestores | main.go:179-187 | a cleanup of distinct, newly added paths removes them and nothing else, without panicking |
| Harness.SucceededSetups | main.go:52-59 | when every setup succeeds, every cleanup is deferred and the disk gains exactly the listed files |
| Harness.CleanupAllRestores | main.go:53-55 | the deferred cleanups of successful setups, run last first, remove exactly what was written |
| Harness.WrittenSetups | main.go:252-263 | when all writes succeed and nothing panics, every setup succeeds and lists both of its files |
| Harness.FreshDeleteLists | main.go:252-263 | the deletion lists of packages with new, distinct generated files are fresh |
| Harness.Main1Restores | main.go:32-65 | a run in which every setup succeeds leaves the directories as it found them, and exits 0 or 1 according to `go test` |

## Left out

- `packages.Load`, `packages.PrintErrors` and the type checker: the packages, the import graph, the error count and each package's scope are given as inputs.
- `types.SizesFor("gc", runtime.GOARCH)`: it is replaced by a simple layout. Each field has a size and an alignment, offsets are aligned up, and the total is rounded up to the largest alignment.
- `os.Create`, the template execution, `Close` and `os.Remove` are modelled as the set of files on disk plus an outcome per write. File contents are not modelled.
- Harness.Disk.Remove: fails only when the file does not exist. `os.Remove` can also fail on an existing file (permissions, a busy file), which the model cannot express.
- `exec.Command("go", …)` and the streaming of its output: only the argument vector and whether the run succeeds are modelled.
- Template rendering and the `go:linkname` naming: only the reset that `deinit` performs is modelled.
- `flagSet.Parse` and `usage`: the parse result is an input, and its remaining arguments reach only the loader, which is not modelled.
- `filepath.Dir` and `filepath.Join`: they are modelled as splitting at and joining with `/`, without `Clean`.
- The `int64` sizes and offsets of `toZero` are unbounded naturals.
- `packages.Visit`: its body is not available, so it is modelled as a pre-order depth-first walk with a seen-set, where imports are visited in list order.
- TestFlags.LazyFlagParse: the flag table is a parameter. TestFlagDefn is the table benchinit passes, and `TableWellFormed` proves the property of it that the lemmas require.
- Reset.Deinit: does not state the order in which the initdone bytes are cleared, only that all of them end up zero.
- Layout.RecordFlagSet: records the size of `formal`, the corrected behaviour from the finding below, not the size of the last field that main.go:246 records. `RecordFlagSetAsWritten` models the code as written.
- Layout.CollectToZero: builds its records with the corrected `RecordFlagSet`, so the ToZero data of `Setup` and `SetupPlan` carry the size of `formal`, not that of the last field.
- Harness.Main1: a panic is modelled as exit status 2, which is what the Go runtime uses. The panic message and stack trace are not modelled.

## Findings

| source | as written | input that shows it | evidently intended | confidence | as-written member | corrected member |
|---|---|---|---|---|---|---|
| main.go:227-246 | `ZeroSize` is `sizes.Sizeof(field.Type())`, and after the field loop `field` holds the last field of the struct, not `formal` | fields `usage` (8), `formal` (8), `output` (16, alignment 8): ZeroSize is 16, so the range `[8, 24)` also clears the 8 bytes after `formal` | ZeroSize is the size of the `formal` field | not executed | Layout.RecordAsWritten, Layout.RecordFlagSetAsWritten, Layout.AsWrittenRecordsLastFieldSize | Layout.Record, Layout.RecordFlagSet, Layout.CollectToZero, Layout.RecordMeaning, Layout.ToZeroAllMeaning |
