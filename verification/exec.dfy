/** The parts of Go's runtime, `os`, `os/exec` and `bytes` that the two child
    process harnesses use, reduced to what the harnesses can observe: the
    environment as a list of `KEY=VALUE` entries, the call stack as a list of
    frames, an in-memory buffer, and a command whose run is decided by an
    abstract `spawn` oracle that says what the started process wrote and how
    it ended. Nothing here starts a real process. */
module Exec {
  import opened Wrappers
  import opened Text

  /** A frame of the call stack: the fully qualified name of its function, or
      nothing when `runtime.FuncForPC` finds no function for its counter. */
  datatype Frame = Frame(funcName: Option<string>)

  /** The two output streams of a process. */
  datatype Stream = Stdout | Stderr

  /** The short name `runtime.Func.Name` gives after its last dot: for
      `"example.com/pkg.TestX.func1"` it is `"func1"`. A frame without a
      function gives "" (a nil `*runtime.Func` reports an empty name). */
  function ShortName(f: Frame): (name: string)
    ensures '.' !in name
    ensures f.funcName.None? ==> name == ""
    ensures f.funcName.Some? ==>
      (&& |name| <= |f.funcName.value|
       && name == f.funcName.value[|f.funcName.value| - |name|..]
       && (|name| < |f.funcName.value| ==> f.funcName.value[|f.funcName.value| - |name| - 1] == '.'))
  {
    match f.funcName
    case None => ""
    case Some(n) => AfterLast(n, '.')
  }

  /** A qualified name `q.n` whose last part `n` has no dot is shown as `n`. */
  lemma ShortNameQualified(q: string, n: string)
    requires '.' !in n
    ensures ShortName(Frame(Some(q + "." + n))) == n
  {
    AfterLastOfJoin(q, '.', n);
    assert q + "." + n == q + ['.'] + n;
  }

  /** One write of a process to one of its streams. */
  datatype Write = Write(stream: Stream, text: string)

  /** What a sink wired to `stream` holds after `writes`: the texts written to
      that stream, in order; writes to the other stream are not in it. */
  function Captured(writes: seq<Write>, stream: Stream): string {
    if writes == [] then ""
    else
      var last := writes[|writes| - 1];
      Captured(writes[..|writes| - 1], stream) + (if last.stream == stream then last.text else "")
  }

  /** Capture follows write order across any split of the writes. */
  lemma {:induction false} CapturedAppend(a: seq<Write>, b: seq<Write>, stream: Stream)
    ensures Captured(a + b, stream) == Captured(a, stream) + Captured(b, stream)
  {
    if b == [] {
      assert a + b == a;
    } else {
      assert (a + b)[..|a + b| - 1] == a + b[..|b| - 1];
      CapturedAppend(a, b[..|b| - 1], stream);
    }
  }

  function TotalLength(writes: seq<Write>): nat {
    if writes == [] then 0 else TotalLength(writes[..|writes| - 1]) + |writes[|writes| - 1].text|
  }

  /** Every written character lands in exactly one of the two sinks: nothing is
      lost and nothing is copied to both. */
  lemma {:induction false} CapturedPartition(writes: seq<Write>)
    ensures |Captured(writes, Stdout)| + |Captured(writes, Stderr)| == TotalLength(writes)
  {
    if writes != [] {
      CapturedPartition(writes[..|writes| - 1]);
    }
  }

  /** How a started process ended: by exiting with a status, or by a signal. */
  datatype Status = Exited(code: int) | Signaled(signal: string)

  /** What happened to a command: it ran (what it wrote, how it ended) or it
      could not be started (executable missing, permission denied). */
  datatype Outcome = Ran(writes: seq<Write>, status: Status) | StartFailed(reason: string)

  /** The status a process reports after `os.Exit(code)`: the operating system
      keeps the low eight bits. */
  function ExitStatus(code: int): (s: int)
    ensures 0 <= s < 256
    ensures 0 <= code < 256 ==> s == code
  {
    code % 256
  }

  /** The errors the harnesses return: an `*exec.ExitError`, the error of a
      start that failed, an error wrapped by `fmt.Errorf("prefix%w", cause)`,
      and a plain error made by `fmt.Errorf` from a message. */
  datatype Error =
    | ExitError(status: Status)
    | StartError(reason: string)
    | Wrapped(prefix: string, cause: Error)
    | Message(text: string)

  /** `err.Error()`. */
  function ErrorText(e: Error): string {
    match e
    case ExitError(Exited(code)) => "exit status " + Decimal(code)
    case ExitError(Signaled(sig)) => "signal: " + sig
    case StartError(reason) => reason
    case Wrapped(prefix, cause) => prefix + ErrorText(cause)
    case Message(text) => text
  }

  /** A wrapped error reads as its prefix followed by its cause. */
  lemma WrappedText(prefix: string, cause: Error)
    ensures ErrorText(Wrapped(prefix, cause))[..|prefix|] == prefix
    ensures ErrorText(Wrapped(prefix, cause))[|prefix|..] == ErrorText(cause)
  {
  }

  /** The error `exec.Cmd.Run` returns for an outcome: nil exactly for a
      process that exited with status 0; an exit error, which names the
      status, for any other end; a start error, of a different kind, when the
      process never started. */
  function RunError(o: Outcome): (e: Option<Error>)
    ensures e.None? <==> o.Ran? && o.status == Exited(0)
    ensures o.Ran? && e.Some? ==> e.value == ExitError(o.status)
    ensures o.StartFailed? ==> e.Some? && e.value.StartError?
  {
    match o
    case Ran(_, status) => if status == Exited(0) then None else Some(ExitError(status))
    case StartFailed(reason) => Some(StartError(reason))
  }

  /** A command as the started process sees it: the program, its argument
      list (the program name first) and its environment. */
  datatype Command = Command(path: string, args: seq<string>, env: seq<string>)

  /** Whether environment entry `e` sets `key`. */
  predicate SetsKey(e: string, key: string) {
    |e| > |key| && e[..|key|] == key && e[|key|] == '='
  }

  /** The value of `key` in `env`, "" when it is unset (`os.Getenv`). When a key
      appears twice the last entry wins, as `os/exec` keeps only the last
      value of a duplicated key in a child's environment. */
  function Getenv(env: seq<string>, key: string): string {
    if env == [] then ""
    else
      var e := env[|env| - 1];
      if SetsKey(e, key) then e[|key| + 1..] else Getenv(env[..|env| - 1], key)
  }

  /** An appended `KEY=VALUE` entry decides what `KEY` reads as, whatever the
      entries before it say. */
  lemma GetenvAppended(env: seq<string>, key: string, value: string)
    ensures Getenv(env + [key + "=" + value], key) == value
  {
    var e := key + "=" + value;
    assert SetsKey(e, key) && e[|key| + 1..] == value;
  }

  /** An appended entry for another key leaves `key` as it was. */
  lemma GetenvOther(env: seq<string>, key: string, other: string, value: string)
    requires '=' !in key && '=' !in other && key != other
    ensures Getenv(env + [other + "=" + value], key) == Getenv(env, key)
  {
    var e := other + "=" + value;
    var env' := env + [e];
    assert env'[..|env'| - 1] == env;
    assert |key| < |other| ==> e[|key|] == other[|key|] && other[|key|] in other;
    assert |key| > |other| && |e| > |key| ==> e[..|key|][|other|] == '=';
    assert |key| == |other| ==> e[..|key|] == other;
  }

  /** `bytes.Buffer`, written to by a running child. */
  class Buffer {
    var data: string

    constructor ()
      ensures data == ""
    {
      data := "";
    }

    function String(): string
      reads this
    {
      data
    }
  }

  /** `exec.Cmd`: the fields the harnesses set before running it. */
  class Cmd {
    const Path: string
    const Args: seq<string>
    /** None is Go's nil: the child inherits the parent's environment */
    var Env: Option<seq<string>>
    var Stdout: Buffer?
    var Stderr: Buffer?

    /** `exec.Command(name, arg)`. */
    constructor (name: string, arg: string)
      ensures Path == name && Args == [name, arg]
      ensures Env == None && Stdout == null && Stderr == null
    {
      Path, Args := name, [name, arg];
      Env, Stdout, Stderr := None, null, null;
    }

    /** The command the started process sees, given the parent's environment. */
    function Launched(environ: seq<string>): Command
      reads this
    {
      Command(Path, Args, Env.GetOr(environ))
    }

    /** `Run`: starts the command and waits for it. What the child writes to
        each of its streams is appended to the buffer wired to that stream,
        in write order; the error is the one `exec` reports for the outcome.
        Both harnesses wire two distinct buffers. */
    method Run(spawn: Command -> Outcome, environ: seq<string>) returns (err: Option<Error>)
      requires Stdout != null && Stderr != null && Stdout != Stderr
      modifies Stdout, Stderr
      ensures var o := spawn(old(Launched(environ)));
        && err == RunError(o)
        && Stdout.data == old(Stdout.data) + (if o.Ran? then Captured(o.writes, Stream.Stdout) else "")
        && Stderr.data == old(Stderr.data) + (if o.Ran? then Captured(o.writes, Stream.Stderr) else "")
    {
      var o := spawn(Launched(environ));
      if o.Ran? {
        Stdout.data := Stdout.data + Captured(o.writes, Stream.Stdout);
        Stderr.data := Stderr.data + Captured(o.writes, Stream.Stderr);
      }
      err := RunError(o);
    }
  }

  /** A test body as the harnesses run it: what it writes, in order, and
      whether it then calls `os.Exit` with a code. */
  datatype Operation = Operation(writes: seq<Write>, exit: Option<int>)

  /** The sample body of the harness tests: "Hello" and "World" to standard
      output, "Lorem" and "Ipsum" to standard error, interleaved. */
  const SampleWrites: seq<Write> :=
    [Write(Stdout, "Hello"), Write(Stderr, "Lorem"), Write(Stdout, "World"), Write(Stderr, "Ipsum")]

  /** Interleaved writes are separated by stream and kept in order. */
  lemma SampleCaptured()
    ensures Captured(SampleWrites, Stdout) == "HelloWorld"
    ensures Captured(SampleWrites, Stderr) == "LoremIpsum"
  {
    var w := SampleWrites;
    assert w[..3][..2][..1][..0] == [];
    assert Captured(w[..1], Stdout) == "Hello" && Captured(w[..1], Stderr) == "";
    assert w[..3][..2] == w[..2] && w[..2][..1] == w[..1] && w[..3] == w[..3];
    assert Captured(w[..2], Stdout) == "Hello" && Captured(w[..2], Stderr) == "Lorem";
    assert Captured(w[..3], Stdout) == "HelloWorld" && Captured(w[..3], Stderr) == "Lorem";
    assert w[..|w| - 1] == w[..3];
  }
}
