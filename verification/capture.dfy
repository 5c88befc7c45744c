/** tester/tester.go: `CaptureChildTest`, the second child process harness.
    It works like `RunChild` with three differences: the child is marked by
    `CHILD=1`; in the child the body runs and the harness returns empty results
    instead of ending the process; and failures are wrapped in errors that say
    which step failed. As written, a child that ends with a nonzero status
    loses its output (see `CaptureResult` and `KeptCaptureResult`). */
module CaptureHarness {
  import opened Wrappers
  import opened Text
  import opened Exec
  import RunChildHarness

  type CallResult = RunChildHarness.CallResult

  /** The environment variable that marks the child process. */
  const Flag: string := "CHILD"

  /** The frames on top of the caller's stack while the test name is looked
      up: the resolver itself, then `CaptureChildTest`. */
  const ResolverFrame: Frame := Frame(Some("github.com/kuoss/common/tester.getTestRun"))
  const CaptureFrame: Frame := Frame(Some("github.com/kuoss/common/tester.CaptureChildTest"))

  /** The error `getTestRun` gives when the stack is too shallow. */
  const NotOkOnCaller: Error := Message("not ok on Caller")

  /** `getTestRun` on a call stack, innermost frame first: the short name of
      the frame two levels up, or an error when the stack is not that deep. A
      frame without a function gives the empty name and no error. */
  function TestRun(stack: seq<Frame>): (r: (string, Option<Error>))
    ensures '.' !in r.0
    ensures r.1.Some? <==> |stack| <= 2
    ensures r.1.Some? ==> r.0 == "" && r.1.value == NotOkOnCaller
    ensures r.1.None? ==> r.0 == ShortName(stack[2])
  {
    if |stack| <= 2 then ("", Some(NotOkOnCaller)) else (ShortName(stack[2]), None)
  }

  /** Where the stack is deep enough, `getTestRun` finds the same name as
      `getCallingTestName` does. */
  lemma TestRunAgreesWithRunChild(stack: seq<Frame>)
    requires |stack| > 2
    ensures TestRun(stack) == (RunChildHarness.CallingTestName(stack), None)
  {
  }

  /** The command the parent starts for a caller stack whose name is `name`. */
  function ChildCommand(arg0: string, name: string, environ: seq<string>): (c: Command)
    ensures c.path == arg0 && c.args == [arg0, "-test.run=" + name]
    ensures |c.env| == |environ| + 1 && c.env[..|environ|] == environ
    ensures Getenv(c.env, Flag) == "1"
  {
    GetenvAppended(environ, Flag, "1");
    Command(arg0, [arg0, "-test.run=" + name], environ + [Flag + "=1"])
  }

  /** What `CaptureChildTest` returns, as written, once the child has ended
      with outcome `o`: the two streams with no error when the child exited
      with status 0; otherwise empty streams and the run error behind the
      prefix "error on Run: ". */
  function CaptureResult(o: Outcome): (r: CallResult)
    ensures r.Returned?
    ensures r.err.None? <==> RunError(o).None?
    ensures r.err.None? ==> o.Ran? && r.stdout == Captured(o.writes, Stream.Stdout) && r.stderr == Captured(o.writes, Stream.Stderr)
    ensures r.err.Some? ==> r.stdout == "" && r.stderr == "" && r.err.value == Wrapped("error on Run: ", RunError(o).value)
  {
    var e := RunError(o);
    if e.Some? then RunChildHarness.Returned("", "", Some(Wrapped("error on Run: ", e.value)))
    else RunChildHarness.Returned(Captured(o.writes, Stream.Stdout), Captured(o.writes, Stream.Stderr), None)
  }

  /** `CaptureChildTest(f)`, with the parameters of `RunChild`. In the child
      the body runs on the process's own streams; if it exits, the process
      ends with its status, and otherwise the harness returns empty streams
      and no error to its caller, which goes on running in the child. In the
      parent a too shallow stack is an error; otherwise the child is started
      and `CaptureResult` is returned. */
  method CaptureChildTest(op: Operation, environ: seq<string>, arg0: string, callers: seq<Frame>, spawn: Command -> Outcome)
    returns (res: CallResult, emitted: seq<Write>)
    ensures Getenv(environ, Flag) == "1" ==>
      && emitted == op.writes
      && res == (if op.exit.Some? then RunChildHarness.ProcessExit(ExitStatus(op.exit.value))
                 else RunChildHarness.Returned("", "", None))
    ensures Getenv(environ, Flag) != "1" ==> emitted == []
    ensures Getenv(environ, Flag) != "1" && callers == [] ==>
      res == RunChildHarness.Returned("", "", Some(Wrapped("error on getTestRun: ", NotOkOnCaller)))
    ensures Getenv(environ, Flag) != "1" && callers != [] ==>
      res == CaptureResult(spawn(ChildCommand(arg0, ShortName(callers[0]), environ)))
  {
    if Getenv(environ, Flag) == "1" {
      emitted := op.writes;
      if op.exit.Some? {
        res := RunChildHarness.ProcessExit(ExitStatus(op.exit.value));
      } else {
        res := RunChildHarness.Returned("", "", None);
      }
      return;
    }
    emitted := [];
    var stack := [ResolverFrame, CaptureFrame] + callers;
    var (testRun, trErr) := TestRun(stack);
    if trErr.Some? {
      res := RunChildHarness.Returned("", "", Some(Wrapped("error on getTestRun: ", trErr.value)));
      return;
    }
    assert stack[2] == callers[0];
    res := StartCapturing(arg0, testRun, environ, spawn);
  }

  /** The parent's part once the test's name is known: the child is started
      on two fresh buffers and waited for, and `CaptureResult` of its outcome
      is returned. */
  method StartCapturing(arg0: string, testRun: string, environ: seq<string>, spawn: Command -> Outcome)
    returns (res: CallResult)
    ensures res == CaptureResult(spawn(ChildCommand(arg0, testRun, environ)))
  {
    var cmd := new Cmd(arg0, "-test.run=" + testRun);
    cmd.Env := Some(environ + [Flag + "=1"]);
    var stdoutBuf := new Buffer();
    var stderrBuf := new Buffer();
    cmd.Stdout := stdoutBuf;
    cmd.Stderr := stderrBuf;
    var err := cmd.Run(spawn, environ);
    if err.Some? {
      res := RunChildHarness.Returned("", "", Some(Wrapped("error on Run: ", err.value)));
      return;
    }
    res := RunChildHarness.Returned(stdoutBuf.String(), stderrBuf.String(), None);
  }

  /** How the child ends when the body exits with a code: it has written what
      the body wrote and its status is that code modulo 256. */
  function ExitingChildOutcome(writes: seq<Write>, code: int): (o: Outcome)
    ensures o.Ran? && o.writes == writes && o.status == Exited(ExitStatus(code))
  {
    Ran(writes, Exited(ExitStatus(code)))
  }

  /** As written, a child that exits with a nonzero status loses everything it
      wrote: the harness returns empty streams, although they were captured. */
  lemma {:induction false} CaptureDropsOutputOnExit(writes: seq<Write>, code: int)
    requires ExitStatus(code) != 0
    ensures var r := CaptureResult(ExitingChildOutcome(writes, code));
      && r.stdout == "" && r.stderr == ""
      && r.err == Some(Wrapped("error on Run: ", ExitError(Exited(ExitStatus(code)))))
  {
    var o := ExitingChildOutcome(writes, code);
    assert RunError(o) == Some(ExitError(Exited(ExitStatus(code))));
  }

  /** The body of tester_inner_test.go that writes "Hello", "Lorem", "World",
      "Ipsum" and exits with 2: the test expects "HelloWorld" and "LoremIpsum"
      with an error, but as written both streams come back empty. */
  lemma SampleExit2AsWritten()
    ensures var r := CaptureResult(ExitingChildOutcome(SampleWrites, 2));
      && r.stdout == "" && r.stderr == ""
      && r.stdout != Captured(SampleWrites, Stream.Stdout)
      && ErrorText(r.err.value) == "error on Run: exit status 2"
  {
    SampleCaptured();
    CaptureDropsOutputOnExit(SampleWrites, 2);
    assert Decimal(2) == "2";
  }

  /** The evidently intended result: the captured streams are returned in
      every case where the child ran, and the error is wrapped as before. */
  function KeptCaptureResult(o: Outcome): (r: CallResult)
    ensures r.Returned?
    ensures r.err.None? <==> RunError(o).None?
    ensures r.err.Some? ==> r.err.value == Wrapped("error on Run: ", RunError(o).value)
    ensures o.Ran? ==> r.stdout == Captured(o.writes, Stream.Stdout) && r.stderr == Captured(o.writes, Stream.Stderr)
    ensures o.StartFailed? ==> r.stdout == "" && r.stderr == ""
  {
    var e := RunError(o);
    var out := if o.Ran? then Captured(o.writes, Stream.Stdout) else "";
    var errOut := if o.Ran? then Captured(o.writes, Stream.Stderr) else "";
    RunChildHarness.Returned(out, errOut, if e.Some? then Some(Wrapped("error on Run: ", e.value)) else None)
  }

  /** The corrected harness agrees with the as-written one whenever the child
      succeeds, and with `RunChild` on the streams in every case; its error is
      `RunChild`'s behind the prefix. */
  lemma {:induction false} KeptCaptureAgrees(o: Outcome)
    ensures RunError(o).None? ==> KeptCaptureResult(o) == CaptureResult(o)
    ensures var k, p := KeptCaptureResult(o), RunChildHarness.ParentResult(o);
      && k.stdout == p.stdout && k.stderr == p.stderr
      && (k.err.None? <==> p.err.None?)
      && (k.err.Some? ==> ErrorText(k.err.value) == "error on Run: " + ErrorText(p.err.value))
  {
  }

  /** With the correction, the child's output survives any exit status, and
      the error says which status it was. */
  lemma {:induction false} KeptOutputOnExit(writes: seq<Write>, code: int)
    ensures var r := KeptCaptureResult(ExitingChildOutcome(writes, code));
      && r.stdout == Captured(writes, Stream.Stdout) && r.stderr == Captured(writes, Stream.Stderr)
      && (r.err.None? <==> ExitStatus(code) == 0)
      && (r.err.Some? ==> ErrorText(r.err.value) == "error on Run: exit status " + Decimal(ExitStatus(code)))
  {
    var o := ExitingChildOutcome(writes, code);
    assert RunError(o).Some? ==> RunError(o).value == ExitError(Exited(ExitStatus(code)));
  }

  /** The tests' expectations hold of the corrected harness: exiting with 0
      gives both streams and no error; exiting with 2 gives both streams and
      an error. */
  lemma SampleKept()
    ensures KeptCaptureResult(ExitingChildOutcome(SampleWrites, 0)) == RunChildHarness.Returned("HelloWorld", "LoremIpsum", None)
    ensures var r := KeptCaptureResult(ExitingChildOutcome(SampleWrites, 2));
      && r.stdout == "HelloWorld" && r.stderr == "LoremIpsum" && r.err.Some?
  {
    SampleCaptured();
  }
}
