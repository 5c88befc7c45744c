/** tester/runchild.go: `RunChild` runs a test body in a child copy of the
    test binary and hands back what the child wrote to each stream and how it
    ended. The same function runs in both processes: a process whose
    environment sets `CHILD_TEST=1` is the child and runs the body directly;
    any other process is the parent and starts the child. */
module RunChildHarness {
  import opened Wrappers
  import opened Text
  import opened Exec

  /** The environment variable that marks the child process. */
  const Flag: string := "CHILD_TEST"

  /** The frames the Go runtime puts on top of the caller's stack while
      `RunChild` asks for the test name: the resolver itself, then `RunChild`. */
  const ResolverFrame: Frame := Frame(Some("github.com/kuoss/common/tester.getCallingTestName"))
  const RunChildFrame: Frame := Frame(Some("github.com/kuoss/common/tester.RunChild"))

  /** `getCallingTestName` on a call stack, innermost frame first (`stack[0]`
      is the resolver itself): the short name of the frame two levels up, or
      "" when the stack is not that deep or that frame has no function. */
  function CallingTestName(stack: seq<Frame>): (name: string)
    ensures '.' !in name
    ensures |stack| <= 2 ==> name == ""
    ensures |stack| > 2 ==> name == ShortName(stack[2])
  {
    if |stack| <= 2 then "" else ShortName(stack[2])
  }

  /** Frames skipped by `runtime.Caller(2)` do not matter: only the third
      frame decides the name. */
  lemma CallingTestNameThirdFrame(a: Frame, b: Frame, c: Frame, rest: seq<Frame>, a': Frame, b': Frame, rest': seq<Frame>)
    ensures CallingTestName([a, b, c] + rest) == CallingTestName([a', b', c] + rest')
  {
  }

  /** The package path of the tester package, as it prefixes its function names. */
  const Pkg: string := "github.com/kuoss/common/tester"

  /** The test names of runchild_inner_test.go. Called from a test, the name
      is that of the test's own caller, `testing.tRunner`. */
  lemma CallingTestNameFromTest()
    ensures CallingTestName([ResolverFrame, Frame(Some(Pkg + ".TestGetCallingTestName")),
                             Frame(Some("testing.tRunner")), Frame(Some("runtime.goexit"))]) == "tRunner"
  {
    ShortNameQualified("testing", "tRunner");
    assert "testing.tRunner" == "testing" + "." + "tRunner";
  }

  /** Called through a closure of the test, the name is the test's. */
  lemma CallingTestNameFromClosure()
    ensures CallingTestName([ResolverFrame, Frame(Some(Pkg + ".TestGetCallingTestName.func1")),
                             Frame(Some(Pkg + ".TestGetCallingTestName"))]) == "TestGetCallingTestName"
  {
    var n := "TestGetCallingTestName";
    assert '.' !in n;
    assert Pkg + ".TestGetCallingTestName" == Pkg + "." + n;
    ShortNameQualified(Pkg, n);
  }

  /** Through a closure that calls that closure, it is the outer closure's
      generated name. */
  lemma CallingTestNameFromNestedClosure()
    ensures CallingTestName([ResolverFrame, Frame(Some(Pkg + ".TestGetCallingTestName.func1")),
                             Frame(Some(Pkg + ".TestGetCallingTestName" + ".func2"))]) == "func2"
  {
    var q := Pkg + ".TestGetCallingTestName";
    assert q + ".func2" == q + "." + "func2";
    ShortNameQualified(q, "func2");
  }

  /** What a harness call ends in: it returns the captured streams and the
      error, or it ends the whole process with an exit status. */
  datatype CallResult =
    | Returned(stdout: string, stderr: string, err: Option<Error>)
    | ProcessExit(status: int)

  /** The command the parent starts: the test binary again, told to run only
      the calling test, with the parent's environment and the flag appended.
      `callers` is the stack above `RunChild`, its caller first. */
  function ChildCommand(arg0: string, callers: seq<Frame>, environ: seq<string>): (c: Command)
    ensures c.path == arg0 && |c.args| == 2 && c.args[0] == arg0
    ensures c.args[1] == "-test.run=" + CallingTestName([ResolverFrame, RunChildFrame] + callers)
    ensures |c.env| == |environ| + 1 && c.env[..|environ|] == environ
    ensures Getenv(c.env, Flag) == "1"
  {
    GetenvAppended(environ, Flag, "1");
    Command(arg0, [arg0, "-test.run=" + CallingTestName([ResolverFrame, RunChildFrame] + callers)], environ + [Flag + "=1"])
  }

  /** The test the child is told to run is the direct caller of `RunChild`. */
  lemma ChildRunsCaller(arg0: string, caller: Frame, rest: seq<Frame>, environ: seq<string>)
    ensures ChildCommand(arg0, [caller] + rest, environ).args[1] == "-test.run=" + ShortName(caller)
  {
    assert ([ResolverFrame, RunChildFrame] + ([caller] + rest))[2] == caller;
  }

  /** How the child process ends when it runs `op` directly: it writes what
      `op` writes, then exits with the code `op` passes to `os.Exit`, or with 0
      through `RunChild`'s own `os.Exit(0)`. */
  function ChildOutcome(op: Operation): (o: Outcome)
    ensures o.Ran? && o.writes == op.writes
    ensures o.status == Exited(ExitStatus(op.exit.GetOr(0)))
  {
    Ran(op.writes, Exited(ExitStatus(op.exit.GetOr(0))))
  }

  /** What the parent returns once the child has ended with outcome `o`. */
  function ParentResult(o: Outcome): (r: CallResult)
    ensures r.Returned?
    ensures r.err == RunError(o)
    ensures o.Ran? ==> r.stdout == Captured(o.writes, Stream.Stdout) && r.stderr == Captured(o.writes, Stream.Stderr)
    ensures o.StartFailed? ==> r.stdout == "" && r.stderr == ""
  {
    if o.Ran? then Returned(Captured(o.writes, Stream.Stdout), Captured(o.writes, Stream.Stderr), RunError(o))
    else Returned("", "", RunError(o))
  }

  /** `RunChild(testFunc)`. `op` is the test body, `environ` the process's
      environment, `arg0` its program path, `callers` the stack above it and
      `spawn` the operating system's answer to starting a command. In the
      child the body runs and the process ends; `emitted` is what the body
      wrote to the process's own streams. In the parent the child is started
      and its streams and error are returned. `started` lists the commands
      handed to the operating system: none in the child. */
  method RunChild(op: Operation, environ: seq<string>, arg0: string, callers: seq<Frame>, spawn: Command -> Outcome)
    returns (res: CallResult, emitted: seq<Write>, started: seq<Command>)
    ensures Getenv(environ, Flag) == "1" ==>
      emitted == op.writes && started == [] && res == ProcessExit(ExitStatus(op.exit.GetOr(0)))
    ensures Getenv(environ, Flag) != "1" ==>
      && emitted == [] && started == [ChildCommand(arg0, callers, environ)]
      && res == ParentResult(spawn(ChildCommand(arg0, callers, environ)))
  {
    if Getenv(environ, Flag) == "1" {
      emitted := op.writes;
      started := [];
      var code := op.exit.GetOr(0);
      res := ProcessExit(ExitStatus(code));
      return;
    }
    emitted := [];
    var name := CallingTestName([ResolverFrame, RunChildFrame] + callers);
    var cmd := new Cmd(arg0, "-test.run=" + name);
    cmd.Env := Some(environ + [Flag + "=1"]);
    var stdoutBuf := new Buffer();
    var stderrBuf := new Buffer();
    cmd.Stdout := stdoutBuf;
    cmd.Stderr := stderrBuf;
    var launched := cmd.Launched(environ);
    assert launched == ChildCommand(arg0, callers, environ);
    started := [launched];
    var err := cmd.Run(spawn, environ);
    res := Returned(stdoutBuf.String(), stderrBuf.String(), err);
  }

  /** What the parent makes of a child that runs the body directly: exactly
      what the body wrote to each stream, whether or not the body exits, and
      an error exactly when the exit status is not 0, naming that status. */
  lemma {:induction false} ChildRoundTrip(op: Operation)
    ensures var r := ParentResult(ChildOutcome(op));
      && r.stdout == Captured(op.writes, Stream.Stdout)
      && r.stderr == Captured(op.writes, Stream.Stderr)
      && (r.err.None? <==> ExitStatus(op.exit.GetOr(0)) == 0)
      && (r.err.Some? ==> ErrorText(r.err.value) == "exit status " + Decimal(ExitStatus(op.exit.GetOr(0))))
  {
    var o := ChildOutcome(op);
    assert RunError(o).Some? ==> RunError(o).value == ExitError(Exited(ExitStatus(op.exit.GetOr(0))));
  }

  /** The round trip through the child, under the premise that the operating
      system, asked to start `ChildCommand`, runs a process that behaves as
      `RunChild`'s child branch does for the same body (`ChildOutcome`).
      Whether the started binary really selects that body is outside the
      model: the `-test.run=` pattern is matched by the test binary. */
  lemma SelfLaunch(op: Operation, arg0: string, callers: seq<Frame>, environ: seq<string>, spawn: Command -> Outcome)
    requires spawn(ChildCommand(arg0, callers, environ)) == ChildOutcome(op)
    ensures var r := ParentResult(spawn(ChildCommand(arg0, callers, environ)));
      && r.stdout == Captured(op.writes, Stream.Stdout)
      && r.stderr == Captured(op.writes, Stream.Stderr)
      && (r.err.None? <==> ExitStatus(op.exit.GetOr(0)) == 0)
      && (r.err.Some? ==> ErrorText(r.err.value) == "exit status " + Decimal(ExitStatus(op.exit.GetOr(0))))
  {
    ChildRoundTrip(op);
  }

  /** The three bodies of runchild_inner_test.go: without an exit, with
      `os.Exit(0)` and with `os.Exit(2)`, the streams are "HelloWorld" and
      "LoremIpsum"; only the last gives an error, "exit status 2". */
  lemma SampleRuns()
    ensures ParentResult(ChildOutcome(Operation(SampleWrites, None))) == Returned("HelloWorld", "LoremIpsum", None)
    ensures ParentResult(ChildOutcome(Operation(SampleWrites, Some(0)))) == Returned("HelloWorld", "LoremIpsum", None)
    ensures var r := ParentResult(ChildOutcome(Operation(SampleWrites, Some(2))));
      && r.stdout == "HelloWorld" && r.stderr == "LoremIpsum"
      && r.err.Some? && ErrorText(r.err.value) == "exit status 2"
  {
    SampleCaptured();
    ChildRoundTrip(Operation(SampleWrites, Some(2)));
    assert Decimal(2) == "2";
  }

  /** An exit code is seen modulo 256: `os.Exit(256)` looks like success. */
  lemma ExitCodeWraps()
    ensures ParentResult(ChildOutcome(Operation([], Some(256)))).err == None
    ensures ParentResult(ChildOutcome(Operation([], Some(257)))).err == Some(ExitError(Exited(1)))
  {
  }
}
