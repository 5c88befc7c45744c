# kuoss/common test helpers and logger, modelled in Dafny

This project models the core of the Go module `github.com/kuoss/common` and
proves properties about it. It covers two packages.

The `tester` package:

- `CaseName` builds readable sub-test names from arbitrary values. It uses
  `toString`, a reflective renderer.
- `RunChild` and `CaptureChildTest` are two harnesses that re-run the current
  test binary as a child process and capture what the child writes.
- `FindProjectRoot` and `SetupDir` copy fixture files and directories into a
  test's temporary directory. `SetupDir` uses `copyPath`, `copyDirectory` and
  `copyFile` to do the copying.

The `logger` package:

- A package-level logger with a level, a caller annotation and two modes for
  showing the caller's file.
- The level names and their parser.

The parts of the Go runtime, the operating system and logrus that the code
relies on are modelled as inputs:

- The environment is a list of `KEY=VALUE` entries.
- The call stack is a list of frames.
- A started process is an oracle that says what the process wrote and how it
  ended.
- The file system is a `FileTree` object. Its tree is a map from clean absolute
  paths to files and directories, and it has a working directory.

Modules:

| file | module | models |
|---|---|---|
| wrappers.dfy | `Wrappers` | `Option` |
| text.dfy | `Text` | decimal text, last index, byte-wise string order, trimming, replacing |
| levels.dfy | `Levels` | logger/types.go |
| logging.dfy | `Logging` | logger/logger.go; the package logger is the class `Logger` |
| casename.dfy | `CaseNames` | tester/casename.go |
| exec.dfy | `Exec` | the environment, call frames, `bytes.Buffer` and `exec.Cmd` |
| runchild.dfy | `RunChildHarness` | tester/runchild.go |
| capture.dfy | `CaptureHarness` | tester/tester.go |
| filetree.dfy | `FileSystem` | paths, `os.Stat`, `os.MkdirAll`, `os.Open`, `os.Create`, `io.Copy`, `os.ReadDir`, `os.Chdir` |
| setupdir.dfy | `SetupDirs` | tester/setupdir.go |
| setupdir_cases.dfy | `SetupDirCases` | the situations of tester/setupdir_test.go |

Structure follows the source:

- Imperative code is modelled as methods. Each method is proved equal to a
  specification function of its inputs and the old state. This covers:
  - the loops of `CaseName` and `toString`;
  - the two harnesses, which set the fields of a `Cmd` and fill two `Buffer`s;
  - the setters of the logger;
  - `FindProjectRoot`, `SetupDir`, `copyPath`, `copyDirectory` and `copyFile`
    over a `FileTree`.
- What the source promises is then proved about those functions as lemmas.

## Model

| member | source | states |
|---|---|---|
| Levels.SeverityInjective | logger/types.go:9-17 | the seven levels have pairwise distinct numeric values |
| Levels.Name | logger/types.go:19-21 | every level prints as a name that `ParseLevel` accepts |
| Levels.NameInjective | logger/types.go:19-21 | no two levels print the same name |
| Levels.NameTable | logger/types_test.go:14-20 | the seven printed names, with Warn printed as "warning" |
| Levels.ParseLevel | logger/types.go:23-26 | parsing succeeds exactly when the lower-cased input is a level name or "warn", and the parsed level then prints as that name; otherwise the level is Panic and the error reads `not a valid logrus Level: ` followed by the input quoted |
| Levels.ParseName | logger/types.go:19-26 | round trip: parsing the name of any level gives that level back with no error |
| Levels.ParseIgnoresCase | logger/types.go:23-26 | two inputs that agree after lower-casing parse to the same level and the same success |
| Levels.ParseUpperName | logger/types_test.go:36-51 | the upper-case name of every level parses to that level |
| Levels.ParseWarnAlias | logger/types_test.go:42-45 | "warn", "WARN" and "warning" all parse to Warn |
| Levels.ParseUnknownName | logger/types.go:23-26 | a lower-case word that is no level name parses to Panic with the error quoting it verbatim |
| Levels.ParseInvalid | logger/types_test.go:52 | "invalid" gives Panic and its error |
| Levels.ParseFoo | logger/types_test.go:53 | "foo" gives Panic and the error quoting `"foo"` |
| Levels.Severity | logger/types.go:9-17 | every level has a numeric value, a place in logrus's order from Panic (0) to Trace (6) |
| Levels.SeverityPlace | logger/types.go:9-17 | the level at a level's numeric value in that order is the level itself |
| Levels.ToLower | logger/types.go:23-26 | lower-casing keeps the length and lower-cases each character in place |
| Levels.LowerOfUpper | logger/types.go:23-26 | upper-casing before lower-casing changes nothing, so parsing ignores case |
| Levels.Quote | logger/types.go:23-26 | the quoted text of the error begins and ends with a double quote |
| Levels.QuotePlain | logger/types.go:23-26 | a printable text with no quote and no backslash is quoted as itself between double quotes |
| Logging.SplitCallerText | logger/logger.go:47 | a `"file:line"` annotation splits back into its file and line, whatever colons the file holds |
| Logging.Prettify | logger/logger.go:37-63 | the function part is always empty; a failed lookup gives "???:1"; full-path mode shows the file unchanged; the default mode shows only the part after the last `/` (`Text.AfterLast`: a suffix of the file, free of `/`, preceded by a `/` when shorter) |
| Logging.PrettifyNotFoundEitherMode | logger/logger_test.go:32-43 | a failed lookup renders ("", "???:1") in both modes |
| Logging.PrettifyBareFile | logger/logger.go:50-62 | a file name without `/` renders the same in both modes |
| Logging.PrettifyBaseName | logger/logger.go:55-60 | for `dir/name`, the default mode shows `name:line` |
| Logging.EmitsPrefix | logger/logger.go:14-20 | a logger at a level writes exactly the messages whose level lies in logrus's order from Panic up to that level |
| Logging.EmitsMoreSevere | logger/logger.go:14-20 | a level threshold that lets a level through lets every more severe level through |
| Logging.InitialThreshold | logger/logger.go:34 | at the initial level Info, Error, Warn and Info messages are written and Debug messages are not; at level Debug they are |
| Logging.Logger.constructor | logger/logger.go:27-35 | `init`: caller reporting, full timestamps, the base-name mode and level Info |
| Logging.LevelScenario | logger/logger_test.go:45-92 | a Debug message is dropped at the initial level; every level of `AllLevels` reads back after it is set; at Debug a Debug message is written with the base-name caller, at Info it is not; choosing full-path mode keeps the level and a warning then names the full path, and choosing the default mode again names the base name |
| Logging.Logger.SetLevel | logger/logger.go:67-69 | the level becomes the one given and nothing else changes |
| Logging.Logger.GetLevel | logger/logger.go:71-73 | returns the current level, so any level set reads back |
| Logging.Logger.SetFullpath | logger/logger.go:79-84 | only the caller mode changes; full timestamps stay on and the level is kept |
| Logging.Logger.Logf | logger/logger.go:88-106 | an entry with the caller annotation of the current mode is appended exactly when the current level lets the message's level through; level and modes are unchanged |
| Logging.Logger.Debugf | logger/logger.go:88-90 | `Logf` at Debug |
| Logging.Logger.Infof | logger/logger.go:92-94 | `Logf` at Info |
| Logging.Logger.Warnf | logger/logger.go:96-98 | `Logf` at Warn |
| Logging.Logger.Errorf | logger/logger.go:100-102 | `Logf` at Error |
| Logging.Logger.Fatalf | logger/logger.go:104-106 | `Logf` at Fatal, and the process then ends with status 1 |
| Exec.ShortName | tester/runchild.go:44-48 | the short name of a frame is the longest suffix of its function name without a dot: either the whole name or what follows its last dot; a frame with no function gives "" |
| Exec.ShortNameQualified | tester/runchild.go:44-48 | `q.n` with a dot-free `n` shows as `n` |
| Exec.CapturedAppend | tester/runchild.go:23-25 | what a sink captures follows write order across any split of the writes |
| Exec.CapturedPartition | tester/runchild.go:23-25 | every written character lands in exactly one of the two sinks: nothing is lost and the streams are never merged |
| Exec.ExitStatus | tester/runchild.go:15 | the status `os.Exit(code)` reports lies in 0..255 and equals the code when the code is in that range |
| Exec.WrappedText | tester/tester.go:19 | an error made with `%w` reads as its prefix followed by the text of its cause |
| Exec.RunError | tester/runchild.go:28 | `cmd.Run` returns no error exactly when the process exited with status 0; otherwise an exit error naming the status, or a start error when the process never started |
| Exec.GetenvAppended | tester/runchild.go:20 | an appended `KEY=VALUE` entry decides what `KEY` reads as |
| Exec.GetenvOther | tester/runchild.go:20 | an appended entry for another key leaves a key's value as it was |
| Exec.Cmd.constructor | tester/runchild.go:19 | `exec.Command(name, arg)` has arguments `[name, arg]`, inherits the environment and has no sinks |
| Exec.Cmd.Run | tester/runchild.go:23-28 | each sink is extended by exactly what the child wrote to its stream, in order; the error is `RunError` of the outcome |
| Exec.SampleCaptured | tester/runchild_inner_test.go:11-21 | the interleaved writes of the tests are captured as "HelloWorld" and "LoremIpsum" |
| RunChildHarness.CallingTestName | tester/runchild.go:32-49 | the name has no dot; it is "" when the stack has no frame at depth 2; otherwise it is the short name of that frame |
| RunChildHarness.CallingTestNameThirdFrame | tester/runchild.go:34 | only the frame at depth 2 decides the name |
| RunChildHarness.CallingTestNameFromTest | tester/runchild_inner_test.go:50 | called from a test, the name is "tRunner" |
| RunChildHarness.CallingTestNameFromClosure | tester/runchild_inner_test.go:52-55 | called through a closure of the test, the name is the test's |
| RunChildHarness.CallingTestNameFromNestedClosure | tester/runchild_inner_test.go:56-59 | through a second closure, the name is the generated "func2" |
| RunChildHarness.ChildCommand | tester/runchild.go:19-20 | the child runs the same program with the single argument `-test.run=` plus the resolved name; its environment is the parent's with `CHILD_TEST=1` appended, so the flag reads "1" in the child |
| RunChildHarness.ChildRunsCaller | tester/runchild.go:19 | the test the child is told to run is the short name of `RunChild`'s direct caller |
| RunChildHarness.ChildOutcome | tester/runchild.go:13-16 | a child runs the body, writing what it writes, and ends with the body's exit code modulo 256, or with status 0 through `RunChild`'s own exit |
| RunChildHarness.ParentResult | tester/runchild.go:22-29 | both captured streams are returned whether or not the child failed, and the error is exactly the run's |
| RunChildHarness.RunChild | tester/runchild.go:11-30 | with the flag set, the body runs once on the process's own streams and the process exits, with status 0 unless the body exited first, and no command is started; otherwise nothing is written, exactly one command, `ChildCommand`, is started, and the result is `ParentResult` of its outcome |
| RunChildHarness.ChildRoundTrip | tester/runchild.go:13-29 | for a child that runs the body directly, the parent returns exactly what the body wrote to each stream, whether or not the body exits, and an error exactly when the exit status is not 0, reading "exit status" and that status |
| RunChildHarness.SelfLaunch | tester/runchild.go:11-30 | round trip through the child, under the premise that starting `ChildCommand` runs a child that behaves as `ChildOutcome` of the same body: the parent's result is then as `ChildRoundTrip` states |
| RunChildHarness.SampleRuns | tester/runchild_inner_test.go:11-47 | no exit and exit 0 return "HelloWorld", "LoremIpsum" and no error; exit 2 returns the same streams and the error "exit status 2" |
| RunChildHarness.ExitCodeWraps | tester/runchild.go:15 | exit codes are seen modulo 256: `os.Exit(256)` looks like success and 257 like 1 |
| CaptureHarness.TestRun | tester/tester.go:34-44 | an error "not ok on Caller" and an empty name exactly when there is no frame at depth 2; otherwise that frame's short name with no error; the name never holds a dot |
| CaptureHarness.TestRunAgreesWithRunChild | tester/tester.go:34-44 | where the stack is deep enough, `getTestRun` and `getCallingTestName` give the same name |
| CaptureHarness.ChildCommand | tester/tester.go:21-22 | the arguments are the program and `-test.run=` plus the name; the environment is the parent's with `CHILD=1` appended |
| CaptureHarness.CaptureResult | tester/tester.go:27-31 | no error exactly when the run succeeded, and then both captured streams; on a failed run both streams are empty and the error is the run's behind "error on Run: " |
| CaptureHarness.CaptureChildTest | tester/tester.go:12-32 | with `CHILD=1`, the body runs once on the process's own streams, and the call returns ("", "", nil) unless the body exits; without it, a stack too shallow gives "error on getTestRun: " wrapped around "not ok on Caller" with nothing started; otherwise the result is `CaptureResult` of starting `ChildCommand` |
| CaptureHarness.StartCapturing | tester/tester.go:21-31 | the child started on two fresh buffers returns `CaptureResult` of the outcome of `ChildCommand` for the test's name |
| CaptureHarness.ExitingChildOutcome | tester/tester.go:14 | a child whose body exits has written what the body wrote and ends with the code modulo 256 |
| CaptureHarness.CaptureDropsOutputOnExit | tester/tester.go:27-30 | as written, a child that exits with a nonzero status loses all it wrote, with an error |
| CaptureHarness.SampleExit2AsWritten | tester/tester_inner_test.go:36-47 | as written, the body of the `exit2` test comes back with two empty streams although it wrote "HelloWorld" and "LoremIpsum" |
| CaptureHarness.KeptCaptureResult | tester/tester.go:27-31 | corrected: the captured streams are returned whenever the child ran, and the error is wrapped as before |
| CaptureHarness.KeptCaptureAgrees | tester/tester.go:27-31 | the correction changes nothing on success, and otherwise returns `RunChild`'s streams and `RunChild`'s error behind the prefix |
| CaptureHarness.KeptOutputOnExit | tester/tester_inner_test.go:36-47 | with the correction, output survives every exit status, and the error names the status |
| CaptureHarness.SampleKept | tester/tester_inner_test.go:23-47 | the corrected harness meets the tests: exit 0 returns both streams and no error, exit 2 returns them with an error |
| CaseNames.Insert | tester/casename.go:41-43 | inserting into entries sorted by key text keeps them sorted and adds exactly the one entry |
| CaseNames.SortByKey | tester/casename.go:41-43 | `sort.Slice` on the key texts: the result is sorted by key and is a permutation of the input |
| CaseNames.SortedUnique | tester/casename.go:41-43 | with distinct keys there is only one sorted arrangement, so the unstable sort's result is determined |
| CaseNames.Render | tester/casename.go:67 | a rendering never starts or ends with a space |
| CaseNames.IsZeroIsZeroOf | tester/casename.go:57 | a struct field counts as zero, and is skipped, exactly when it equals the zero value of its type: nil pointers, slices and maps, 0, "", and arrays and structs whose parts are all zero |
| CaseNames.ToString | tester/casename.go:31-68 | the method walking the value, with its builder loops, produces `Render` of the value |
| CaseNames.WriteList | tester/casename.go:48-52 | the builder holds each element's rendering followed by a space, in order |
| CaseNames.WriteMap | tester/casename.go:38-47 | the builder holds the values' renderings in the order of their key texts, each followed by a space |
| CaseNames.WriteStruct | tester/casename.go:53-61 | the builder holds the renderings of the exported non-zero fields, in declaration order |
| CaseNames.WordsAt | tester/casename.go:48-52 | each word of a list is the rendering of the element in the same place |
| CaseNames.RenderPairsAt | tester/casename.go:44-47 | each rendered map entry keeps its key and holds its value's rendering |
| CaseNames.SpacedTrim | tester/casename.go:67 | parts written with a trailing space each, once trimmed, read as the parts joined by single spaces |
| CaseNames.ListJoinsWords | tester/casename.go:48-52 | a slice or array whose elements all render to something renders as those renderings in order, separated by single spaces |
| CaseNames.StructAsList | tester/casename.go:53-61 | a struct renders as the slice of its exported non-zero field values, in declaration order |
| CaseNames.ZeroStructRendersEmpty | tester/casename.go:53-61 | a struct whose fields are all zero, the empty struct among them, shows no field and renders as "" |
| CaseNames.PointerRendering | tester/casename.go:34-36 | a pointer to a map, slice, array or struct renders as its target; a pointer to an `int`, a string, a nil pointer or a nil interface renders as its address |
| CaseNames.PointerToEmptyCollection | tester/casename.go:34-52 | a pointer to a nil or empty slice or map renders as "", since `toString` walks into the collection and writes nothing |
| CaseNames.MapInKeyOrder | tester/casename.go:38-47 | a map renders as its values in an order sorted by key text, from a permutation of its entries |
| CaseNames.MapValuesPermutation | tester/casename.go:44-47 | mapping the values of two entry lists with the same entries gives lists with the same entries |
| CaseNames.RenderPairsPermutation | tester/casename.go:44-47 | rendering the values of two iteration orders gives the same multiset of rendered entries |
| CaseNames.MapOrderIrrelevant | tester/casename.go:38-47 | the map's iteration order never shows: any two orders of the same entries render alike when no two keys print alike |
| CaseNames.CollapseSingleSpaced | tester/casename.go:23 | after the `[_\s]+` replacement the only run character left is the space, and no two are adjacent |
| CaseNames.CollapseKeeps | tester/casename.go:23 | the replacement keeps every other character, in order |
| CaseNames.CollapseFixed | tester/casename.go:23 | a text with no run to shrink is left as it is |
| CaseNames.CollapseIdempotent | tester/casename.go:23 | replacing a second time changes nothing |
| CaseNames.CollapseRun | tester/casename.go:23 | each run, whatever its length and characters, becomes exactly one space between the text on either side |
| CaseNames.Truncate | tester/casename.go:25-28 | at most 64 characters; a text of up to 64 is kept; a longer one becomes its first 61 characters and "..."; cutting keeps single spacing and adds no `/` |
| CaseNames.Clean | tester/casename.go:22-24 | after trimming, collapsing and replacing, the text holds no `/` and is single-spaced |
| CaseNames.Normalize | tester/casename.go:22-28 | the final name has at most 64 characters, no `/`; of the characters of `[_\s]` (with RE2's `\s`: tab, newline, form feed, carriage return, space) only the space, and never two of them side by side |
| CaseNames.Piece | tester/casename.go:13-20 | an `int` in first place below 100 is written as two decimal digits of its value; any other argument through `toString` |
| CaseNames.Pieces | tester/casename.go:13-20 | the pieces are in argument order, each written as `Piece` says for its place |
| CaseNames.CaseName | tester/casename.go:11-29 | the method's loop and post-processing produce `Normalize` of the pieces each followed by a space |
| CaseNames.LineSpaced | tester/casename.go:13-21 | the loop writes each piece followed by one space, in argument order |
| CaseNames.CaseNameOfWords | tester/casename.go:11-29 | when every piece is a word, the name is the pieces joined by single spaces, with `/` replaced by `%` and the length capped |
| CaseNames.CaseNameLeadingInt | tester/casename.go:14-18 | a first `int` below 100 followed by words makes the name start with its two zero-padded digits |
| CaseNames.NormalizePaddedWord | tester/casename.go:22-28 | a word of up to 64 characters without `/`, followed by two spaces, normalizes to the word |
| CaseNames.RenderStr | tester/casename.go:64-65 | a string without spaces renders as itself |
| CaseNames.RenderInt | tester/casename.go:64-65 | an `int` renders in decimal |
| CaseNames.RenderTwo | tester/casename.go:48-52 | a two-element slice renders as its two renderings with one space between |
| CaseNames.RenderThree | tester/casename.go:48-52 | a three-element slice or array renders as its three renderings separated by single spaces |
| CaseNames.StructOfTwo | tester/casename.go:53-61 | a struct of two shown fields renders as the slice of their values |
| CaseNames.TwoFields | tester/casename.go:53-61 | a struct of a non-empty string without spaces and a non-zero `int` renders as the string, a space and the decimal |
| CaseNames.PointerToTwoFields | tester/casename.go:34-36 | a pointer to such a struct renders as the struct |
| CaseNames.HiddenThirdField | tester/casename.go:57 | an unexported field after two shown ones is left out |
| CaseNames.IntThenNilField | tester/casename.go:57 | a nil field after a shown `int` is left out |
| CaseNames.RenderedScalars | tester/casename_test.go:90-109 | nil renders as "", 42 as "42" and "hello" as itself |
| CaseNames.RenderedSliceOfInts | tester/casename_test.go:111-114 | `[]int{1, 2, 3}` renders as "1 2 3" |
| CaseNames.RenderedArrayOfStrings | tester/casename_test.go:116-119 | `[3]string{"a", "b", "c"}` renders as "a b c" |
| CaseNames.RenderedMap | tester/casename_test.go:121-124 | a map iterated as b then a still renders as "1 2" |
| CaseNames.RenderedStruct | tester/casename_test.go:126-132 | the struct {"Test", 10} renders as "Test 10" |
| CaseNames.RenderedPointer | tester/casename_test.go:134-140 | a pointer to {"Pointer", 20} renders as "Pointer 20" |
| CaseNames.RenderedHiddenField | tester/casename_test.go:142-149 | the unexported field is left out: "Visible 30" |
| CaseNames.RenderedNilField | tester/casename_test.go:151-157 | the nil pointer field is left out: "5" |
| CaseNames.CaseNameSingleInt | tester/casename_test.go:16-20 | `CaseName(1)` is "01" |
| CaseNames.CaseNameSpecialCharacters | tester/casename_test.go:59-63 | `CaseName(1, a, "/" + w)` for plain words `a` and `w` (the test's "test" and "/path") is "01 a %w": the `/` becomes `%` |
| CaseNames.CaseNameLongString | tester/casename_test.go:54-58 | `CaseName(1, 70 × "a")` is "01 " followed by 58 "a"s and "..." |
| CaseNames.CaseNameEmptyStruct | tester/casename_test.go:64-73 | `CaseName(1, struct{}{})` and `CaseName(1, nil pointer)` are both "01" |
| FileSystem.Parent | tester/setupdir.go:23 | `filepath.Dir` of a clean path: the path without its last component, and the root for the root |
| FileSystem.ResolvePathText | tester/setupdir.go:20 | the text of a path names that path from any working directory |
| FileSystem.ResolveJoin | tester/setupdir.go:59-61 | joining a directory's text and a relative text names the directory walked by that text's components |
| FileSystem.ResolveJoinName | tester/setupdir.go:97-98 | joining a directory and an entry name names that entry |
| FileSystem.Base | tester/setupdir.go:59 | `filepath.Base`: never empty; "." for "", "/" for slashes only, otherwise a name without `/` |
| FileSystem.BaseOfPath | tester/setupdir.go:59 | the base of a path's text is its last component |
| FileSystem.MakeDirs | tester/setupdir.go:87 | `os.MkdirAll` fails exactly when a file stands at or above the path, or the path is too long |
| FileSystem.MakeDirsKeeps | tester/setupdir.go:115 | `os.MkdirAll` keeps the tree well formed and changes no existing entry; it adds only directories at or above the path; on success the path is a directory; with a file in the way it changes nothing |
| FileSystem.OpenError | tester/setupdir.go:119 | `os.Open` fails exactly when nothing is at the path |
| FileSystem.Created | tester/setupdir.go:125 | `os.Create` succeeds exactly on an existing file, or on a new path in an existing directory that fits; the file is then empty; on failure nothing changes |
| FileSystem.CopiedInto | tester/setupdir.go:131 | `io.Copy` succeeds exactly when the source is a file, and the destination then holds its content |
| FileSystem.StatError | tester/setupdir.go:74 | `os.Stat` succeeds exactly on a non-empty text whose lexically resolved path exists (weaker than the kernel's lookup; see "## Left out") |
| FileSystem.SortedSpec | tester/setupdir.go:91 | the sorted names list every name of the set once, in strictly increasing order |
| FileSystem.ListingSpec | tester/setupdir.go:91 | `os.ReadDir` lists every entry of the directory exactly once, sorted by name, and says which are directories |
| FileSystem.ReadDirError | tester/setupdir.go:91-94 | `os.ReadDir` succeeds exactly on a directory |
| FileSystem.FileTree.constructor | tester/setupdir.go:35 | a file tree with the given entries and working directory |
| FileSystem.FileTree.Getwd | tester/setupdir.go:35 | returns the working directory |
| FileSystem.FileTree.Chdir | tester/setupdir.go:45 | succeeds exactly on a directory and then moves there; the tree is unchanged |
| FileSystem.FileTree.Stat | tester/setupdir.go:74 | the node named, or the `StatError` |
| FileSystem.FileTree.MkdirAll | tester/setupdir.go:87 | the tree and error are those of `MakeDirs` |
| FileSystem.FileTree.Open | tester/setupdir.go:119 | the error of opening |
| FileSystem.FileTree.Create | tester/setupdir.go:125 | the tree and error are those of `Created` |
| FileSystem.FileTree.Copy | tester/setupdir.go:131 | the tree and error are those of `CopiedInto` |
| FileSystem.FileTree.ReadDir | tester/setupdir.go:91 | the listing of the directory, sorted by name, with its loop proved to produce it; or the error |
| SetupDirs.ProjectRootSpec | tester/setupdir.go:13-30 | the root found holds `go.mod`, lies at or above the start, and no directory between them holds one; none is found exactly when no directory at or above the start holds `go.mod` |
| SetupDirs.FindProjectRoot | tester/setupdir.go:13-30 | the upward walk, which ends at the root, returns the `ProjectRoot` of the working directory; None stands for the panic |
| SetupDirs.CopyFile | tester/setupdir.go:114-133 | the tree and error are `CopyFileResult`; the working directory is unchanged |
| SetupDirs.CopyDirectory | tester/setupdir.go:86-111 | the tree and error are `CopyDir` |
| SetupDirs.CopyEachEntry | tester/setupdir.go:96-109 | the loop copies the entries in order and stops at the first error, as `CopyEntries` says |
| SetupDirs.CopyEntry | tester/setupdir.go:100-108 | a directory entry is copied as a directory, any other entry as a file |
| SetupDirs.CopyPath | tester/setupdir.go:73-83 | the tree and error are `CopyPathResult` |
| SetupDirs.CopyEntriesStep | tester/setupdir.go:100-108 | the first entry is copied; the rest follow only when it succeeds |
| SetupDirs.CopyFileKeeps | tester/setupdir.go:114-133 | `copyFile` keeps the tree well formed, removes nothing, turns no file into a directory or back, and changes only the destination and the directories it makes above it |
| SetupDirs.CopyDirKeeps | tester/setupdir.go:86-111 | the same for `copyDirectory`, with the destination's subtree |
| SetupDirs.ListingLists | tester/setupdir.go:91 | the listing names each entry of the directory once, as it is |
| SetupDirs.CopyFileSpec | tester/setupdir.go:114-133 | `copyFile` succeeds exactly when the source is a file, no file blocks the destination's directory, and the destination fits and is not a directory; the copy then holds the source's content, except that a file copied onto itself is left empty |
| SetupDirs.CopyDirMirrors | tester/setupdir.go:86-111 | after a successful `copyDirectory` between disjoint paths, every file and directory at relative path p under the source is at p under the destination, with the same content |
| SetupDirs.CopyDirSucceeds | tester/setupdir.go:86-111 | with nothing in the way, `copyDirectory` between disjoint paths succeeds |
| SetupDirs.CopyDirSucceeded | tester/setupdir.go:86-111 | a copy that succeeded had nothing in its way |
| SetupDirs.CopyDirSpec | tester/setupdir.go:86-111 | `copyDirectory` between disjoint paths succeeds exactly when nothing is in its way; it then mirrors the source; in every case it keeps the tree well formed, changes only the destination's subtree and the directories above it, and turns no file into a directory or back |
| SetupDirs.CopyPathSpec | tester/setupdir.go:73-83 | a missing source gives the `os.Stat` error and no change; a directory is copied as `CopyDirSpec` says and a file as `CopyFileSpec` says; the tree stays well formed and every directory stays one |
| SetupDirs.CopyAllSingle | tester/setupdir.go:56-67 | with one pair, the loop is that pair's `copyPath` with `@` replaced and the destination computed |
| SetupDirs.CopyPathConfined | tester/setupdir.go:73-83 | `copyPath` keeps the tree well formed and changes only its destination and what lies under or above it |
| SetupDirs.CopyPathMirrors | tester/setupdir.go:73-83 | a successful `copyPath` between disjoint paths found the source and copied everything at or under it to the destination |
| SetupDirs.CopyAllSameUnder | tester/setupdir.go:56-67 | the copies leave everything at or under a path disjoint from every destination as it was |
| SetupDirs.CopyAllMirrors | tester/setupdir.go:56-67 | when no destination overlaps a source or another destination and no copy fails, every pair's source existed and everything that was at or under it is copied to that pair's destination |
| SetupDirs.CopyAllKeeps | tester/setupdir.go:56-67 | the copies keep the tree well formed and every directory a directory, the temporary one among them |
| SetupDirs.SetupDir | tester/setupdir.go:33-70 | returns the temporary directory and a clean-up that returns to the caller's directory; ends in the temporary directory; with no root it panics with "project root with go.mod file not found" and copies nothing; otherwise the tree is that of the copies (`CopyAll`, whose effect `CopyAllKeeps` and `CopyAllMirrors` state), and a failed copy panics with "SetupDir: failed to copyPath: " and the error; the deferred change of directory cannot fail |
| SetupDirs.RunCleanup | tester/setupdir.go:44-46 | moves back to the saved directory when it is still one, ignoring the error, and changes no file |
| SetupDirCases.CopyIntoEmpty | tester/setupdir.go:86-111 | nothing stands in the way of copying a directory to a place that is free or an empty directory, when the copies fit |
| SetupDirCases.MakeDirsExisting | tester/setupdir.go:87 | `os.MkdirAll` of an existing directory changes nothing and succeeds |
| SetupDirCases.SingleCopy | tester/setupdir.go:56-82 | one pair naming an existing source is copied by `copyDirectory` or `copyFile`, as the source's kind says |
| SetupDirCases.DefaultDestination | tester/setupdir.go:57-59 | a source without `@` is kept, and with no destination it goes to the temporary directory under its base name |
| SetupDirCases.CopyFileCase | tester/setupdir_test.go:100-114 | a file copied to a new name in an empty directory succeeds and holds the source's content |
| SetupDirCases.CopyDirectoryOkCase | tester/setupdir_test.go:70-90 | copying a directory into an empty one brings a file of it and a file of a subdirectory along, with their contents |
| SetupDirCases.CopyDirectoryErrorCase | tester/setupdir_test.go:92-98 | copying a directory that does not exist fails on opening it with "no such file or directory" and changes nothing |
| SetupDirCases.ValidFilesCase | tester/setupdir_test.go:11-28 | a file given with no destination is copied into the temporary directory under its own name |
| SetupDirCases.DirectoryCopyCase | tester/setupdir_test.go:30-50 | a directory given with no destination is copied, with its file, into the temporary directory under its own name |
| SetupDirCases.DestinationPathCase | tester/setupdir_test.go:52-68 | a file given a two-part destination is copied there, and the directory between is made on the way |
| SetupDirCases.NonExistentSourceCase | tester/setupdir_test.go:116-122 | a source that names nothing makes the copies fail on `os.Stat`, so `SetupDir` panics |

## Left out

- Processes, I/O and the runtime are inputs. Starting a process, `os.Args[0]`,
  `os.Environ`, `runtime.Caller` and `runtime.FuncForPC` are parameters: the
  program path, the environment, the call stack and a `spawn` oracle. Go's
  closure naming (`tRunner`, `func1`, `func2`) appears only in the stacks given
  to the scenario lemmas.
- `RunChildHarness.ChildCommand`: `-test.run=` takes an unanchored regular
  expression, so the contract says which name is passed, not that the child
  runs exactly that one test.
- `CaptureHarness.CaptureChildTest`: in the child, when the body does not exit,
  the call returns ("", "", nil). The rest of the calling test then runs on in
  the child; that is not modelled.
- `CaptureHarness.TestRun`: a frame without a function gives the empty name. It
  does not give a panic, because `runtime.Func.Name` returns "" for a nil
  function. The stack depth is the only source of an error.
- `Logging.Logger.Logf`: logrus's text layout, timestamps, `Sprintf`
  formatting, `SetOutput` and the output writer are not modelled. An entry is
  recorded as its level, its formatted message and its caller annotation.
- `Logging.Logger.Fatalf`: the process exit is returned as the status 1; the
  end of the process is not modelled.
- The caller-skip tests of logger_inner_test.go and logger_outer_test.go are
  not modelled: they call a `SetCallerSkip` that logger/logger.go does not
  define. The re-exec tests of `Fatalf` are not modelled either; they repeat
  the harness pattern.
- `Levels.ToLower`: folds ASCII letters only. logrus lower-cases with Unicode
  case folding.
- `Levels.Quote`: escapes ASCII control characters, quotes and backslashes as
  `strconv.Quote` does. Non-ASCII and non-printable Unicode characters are
  kept as they are.
- `RunChildHarness.SelfLaunch`: the child's behaviour is a premise. The
  model does not prove that the started test binary runs exactly the calling
  test: `-test.run=` is an unanchored regular expression, which the test binary
  matches against every test name.
- `SetupDirs.CopyAllMirrors`: the copy of every pair is proved only when no
  destination lies in, under or above a source or another destination. When
  pairs overlap, a later copy may overwrite an earlier one, and nothing more
  is proved than `CopyAllKeeps`.
- `CaseNames.CaseName`: strings are sequences of characters. Go's `len(s) > 64`
  and `s[:61]` count bytes, so a name holding non-ASCII characters is cut at
  another place in Go.
- `CaseNames.Value`: `Nil` stands for a nil slice or map only outside a
  pointer. A nil slice or map behind a pointer is given as `List([], false)` or
  `Map([])`, which renders the same.
- `CaseNames.Render`: only nil, `int`, string, pointer, slice, array, map and
  struct values are modelled. Floats, booleans, other numbers, channels,
  functions and interface-typed fields are not, and a pointer's `%v` address is
  given as text. A map key is given as the text `%v` prints for it.
- `CaseNames.MapOrderIrrelevant`: holds only for maps whose keys print
  differently. With two keys printing alike, the unstable sort may order their
  values either way.
- `CaseNames.Collapse`: implements `[_\s]+` directly, with RE2's `\s` (tab,
  newline, form feed, carriage return, space). No regular-expression engine is
  modelled.
- `FileSystem.FileTree`: permissions, symbolic links, open descriptors, close
  errors and byte-level copying are not modelled; a file is its content. Paths
  are clean and absolute. Every empty, `.` and `..` component of a path text
  is applied lexically, as `filepath.Clean` does, rather than by the kernel.
  The kernel also requires the path reached so far to be a directory. The
  limit on one component's length is not modelled, and
  the 4096-character limit is measured on the resolved text. Errors name the
  resolved path, except for `os.Stat`, which names the text given.
- `FileSystem.StatError`: a text is found when its lexically resolved path
  exists. For a regular file `f`, `os.Stat` of `f/`, `f/.` or `f/../g` fails
  with "not a directory", and `missing/../g` fails with "no such file or
  directory". The model finds the resolved path in all these cases. So
  `SetupDir` with the pair ("@/go.mod/", "") copies `go.mod` in the model,
  where Go panics on the `os.Stat` error. For the same reason, a destination
  text ending in `/` names the resolved path in `copyFile`, where Go's
  `os.Create` fails.
- `FileSystem.FileTree.Getwd`: its error is not modelled, so the two
  "failed to os.Getwd" panics (setupdir.go:16, 37) cannot happen.
- `SetupDirs.SetupDir`: `t.TempDir()` is a parameter, a directory. The map
  `pathsToCopy` is given as its pairs in the order the loop happens to visit
  them, which Go randomizes.
- `SetupDirs.CopyDirSpec`: success and the mirror property are proved only when
  neither the source nor the destination lies under the other. Copying a
  directory into itself recurses in Go until a path is too long; the model
  also ends there, through the path-length limit, but nothing more is proved
  about it.

## Findings

| source | as written | input that shows it | evidently intended | confidence | as-written member | corrected member |
|---|---|---|---|---|---|---|
| tester/tester.go:27-30 | when `cmd.Run` returns an error, `CaptureChildTest` returns "" for both streams and discards what the child wrote | a body that writes "Hello", "Lorem", "World", "Ipsum" and calls `os.Exit(2)` (tester/tester_inner_test.go:36-47): the streams come back empty, while the test expects "HelloWorld" and "LoremIpsum" | return the captured streams together with the wrapped error, as `RunChild` does (tester/runchild.go:29) | not executed | CaptureHarness.CaptureDropsOutputOnExit | CaptureHarness.KeptCaptureResult |
