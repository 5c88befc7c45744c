/** The package-level logger of logger/logger.go: its level, its caller
    annotation mode and the entries it writes. The Go package keeps one logrus
    logger in a package variable; here that is one `Logger` object. The text
    layout, timestamps and the output writer belong to logrus and are not
    modelled: an emitted entry is recorded as its level, its already formatted
    message and the caller annotation that would be printed beside it. */
module Logging {
  import opened Wrappers
  import opened Text
  import opened Levels

  /** What `runtime.Caller` reports to the caller prettyfier. */
  datatype CallerLookup = NotFound | Found(file: string, line: int)

  /** The `"file:line"` text that the prettyfier prints. */
  function CallerText(file: string, line: int): string {
    file + ":" + Decimal(line)
  }

  /** Reads a `"file:line"` annotation back: the text before the last colon and
      the number after it. */
  function SplitCaller(t: string): Option<(string, int)> {
    var i := LastIndex(t, ':');
    if i < 0 then None
    else
      var tail := t[i + 1..];
      if IsDecimalText(tail) then Some((t[..i], DecimalValue(tail))) else None
  }

  /** The number after the colon never holds a colon itself, so the annotation
      splits back into the file and the line it was made from, whatever colons
      the file name holds. */
  lemma SplitCallerText(file: string, line: int)
    ensures SplitCaller(CallerText(file, line)) == Some((file, line))
  {
    var d := Decimal(line);
    DecimalRoundTrip(line);
    assert ':' !in d by {
      if line < 0 {
        assert d == "-" + Digits(-line);
        assert forall k :: 1 <= k < |d| ==> d[k] == Digits(-line)[k - 1];
      }
    }
    LastIndexOfJoin(file, ':', d);
    var t := CallerText(file, line);
    assert t == file + [':'] + d;
    assert t[|file| + 1..] == d && t[..|file|] == file;
  }

  /** `getCallerPrettyfier(fullpath)` applied to a frame (which it ignores):
      the function component is always empty; the file component is
      `"file:line"`, with only the base name of the file unless `fullpath` is
      set, and `"???:1"` when the caller cannot be looked up. */
  function Prettify(fullpath: bool, caller: CallerLookup): (r: (string, string))
    ensures r.0 == ""
    ensures caller.NotFound? ==> r.1 == "???:1"
    ensures caller.Found? && fullpath ==> SplitCaller(r.1) == Some((caller.file, caller.line))
    ensures caller.Found? && !fullpath ==> SplitCaller(r.1) == Some((AfterLast(caller.file, '/'), caller.line))
  {
    match caller
    case NotFound => ("", "???:1")
    case Found(file, line) =>
      var shown := if fullpath then file else AfterLast(file, '/');
      SplitCallerText(shown, line);
      ("", CallerText(shown, line))
  }

  /** A lookup that fails renders the same in both modes. */
  lemma PrettifyNotFoundEitherMode()
    ensures Prettify(true, NotFound) == Prettify(false, NotFound) == ("", "???:1")
  {
  }

  /** A file with no directory part renders the same in both modes. */
  lemma PrettifyBareFile(file: string, line: int)
    requires '/' !in file
    ensures Prettify(false, Found(file, line)) == Prettify(true, Found(file, line))
  {
    AfterLastWithout(file, '/');
  }

  /** The base name shown in the default mode is what follows the last slash. */
  lemma PrettifyBaseName(dir: string, name: string, line: int)
    requires '/' !in name
    ensures Prettify(false, Found(dir + "/" + name, line)).1 == CallerText(name, line)
  {
    AfterLastOfJoin(dir, '/', name);
    assert dir + "/" + name == dir + ['/'] + name;
  }

  /** One entry as the logger writes it. */
  datatype Entry = Entry(level: Level, message: string, caller: string)

  /** Whether a logger whose level is `threshold` writes a message of level
      `l`: logrus compares the numeric values, so exactly the levels from
      Panic up to the threshold in logrus's order are written. */
  predicate Emits(threshold: Level, l: Level)
  {
    Severity(l) <= Severity(threshold)
  }

  /** The levels a threshold lets through are exactly the prefix of `Order`
      that ends at the threshold. */
  lemma EmitsPrefix(threshold: Level, l: Level)
    ensures Emits(threshold, l) <==> l in Order[..Severity(threshold) + 1]
  {
    SeverityPlace(l);
    if l in Order[..Severity(threshold) + 1] {
      var i :| 0 <= i <= Severity(threshold) && Order[i] == l;
      SeverityPlace(Order[i]);
      assert Order[Severity(l)] == Order[i];
    }
  }

  /** A threshold that lets a level through lets every more severe level through. */
  lemma EmitsMoreSevere(threshold: Level, l: Level, m: Level)
    requires Emits(threshold, l) && Severity(m) <= Severity(l)
    ensures Emits(threshold, m)
  {
  }

  /** At the initial level, Info, the messages of Error, Warn and Info are
      written and those of Debug are not; at Debug, they are. */
  lemma InitialThreshold()
    ensures Emits(Info, Error) && Emits(Info, Warn) && Emits(Info, Info)
    ensures !Emits(Info, Debug) && Emits(Debug, Debug)
  {
  }

  class Logger {
    var level: Level
    /** which prettyfier the formatter holds */
    var fullpath: bool
    var fullTimestamp: bool
    var reportCaller: bool
    /** the entries written so far, oldest first */
    var output: seq<Entry>

    /** The package's `init`: report callers, full timestamps, the base-name
        prettyfier and level Info. */
    constructor ()
      ensures level == Info && !fullpath && fullTimestamp && reportCaller && output == []
    {
      reportCaller := true;
      fullTimestamp := true;
      fullpath := false;
      level := Info;
      output := [];
    }

    /** `SetLevel`: the level changes and nothing else does. */
    method SetLevel(l: Level)
      modifies this
      ensures level == l
      ensures fullpath == old(fullpath) && fullTimestamp == old(fullTimestamp)
      ensures reportCaller == old(reportCaller) && output == old(output)
    {
      level := l;
    }

    /** `GetLevel`. */
    method GetLevel() returns (l: Level)
      ensures l == level
    {
      l := level;
    }

    /** `SetFullpath`: installs a formatter with full timestamps and the
        prettyfier of the given mode; the level is unchanged. */
    method SetFullpath(b: bool)
      modifies this
      ensures fullpath == b && fullTimestamp
      ensures level == old(level) && reportCaller == old(reportCaller) && output == old(output)
    {
      fullTimestamp := true;
      fullpath := b;
    }

    /** One leveled log call: the entry is written, with the caller annotation
        of the current mode, exactly when the current level lets `l` through. */
    method Logf(l: Level, message: string, caller: CallerLookup)
      modifies this
      ensures output == if Emits(old(level), l)
                        then old(output) + [Entry(l, message, Prettify(old(fullpath), caller).1)]
                        else old(output)
      ensures level == old(level) && fullpath == old(fullpath)
      ensures fullTimestamp == old(fullTimestamp) && reportCaller == old(reportCaller)
    {
      if Emits(level, l) {
        output := output + [Entry(l, message, Prettify(fullpath, caller).1)];
      }
    }

    method Debugf(message: string, caller: CallerLookup)
      modifies this
      ensures output == if Emits(old(level), Debug)
                        then old(output) + [Entry(Debug, message, Prettify(old(fullpath), caller).1)]
                        else old(output)
      ensures level == old(level) && fullpath == old(fullpath)
      ensures fullTimestamp == old(fullTimestamp) && reportCaller == old(reportCaller)
    {
      Logf(Debug, message, caller);
    }

    method Infof(message: string, caller: CallerLookup)
      modifies this
      ensures output == if Emits(old(level), Info)
                        then old(output) + [Entry(Info, message, Prettify(old(fullpath), caller).1)]
                        else old(output)
      ensures level == old(level) && fullpath == old(fullpath)
      ensures fullTimestamp == old(fullTimestamp) && reportCaller == old(reportCaller)
    {
      Logf(Info, message, caller);
    }

    method Warnf(message: string, caller: CallerLookup)
      modifies this
      ensures output == if Emits(old(level), Warn)
                        then old(output) + [Entry(Warn, message, Prettify(old(fullpath), caller).1)]
                        else old(output)
      ensures level == old(level) && fullpath == old(fullpath)
      ensures fullTimestamp == old(fullTimestamp) && reportCaller == old(reportCaller)
    {
      Logf(Warn, message, caller);
    }

    method Errorf(message: string, caller: CallerLookup)
      modifies this
      ensures output == if Emits(old(level), Error)
                        then old(output) + [Entry(Error, message, Prettify(old(fullpath), caller).1)]
                        else old(output)
      ensures level == old(level) && fullpath == old(fullpath)
      ensures fullTimestamp == old(fullTimestamp) && reportCaller == old(reportCaller)
    {
      Logf(Error, message, caller);
    }

    /** `Fatalf`: logs at Fatal, then logrus ends the process with status 1,
        which is returned here. */
    method Fatalf(message: string, caller: CallerLookup) returns (exitStatus: int)
      modifies this
      ensures exitStatus == 1
      ensures output == if Emits(old(level), Fatal)
                        then old(output) + [Entry(Fatal, message, Prettify(old(fullpath), caller).1)]
                        else old(output)
      ensures level == old(level) && fullpath == old(fullpath)
      ensures fullTimestamp == old(fullTimestamp) && reportCaller == old(reportCaller)
    {
      Logf(Fatal, message, caller);
      exitStatus := 1;
    }
  }

  /** What a caller observes of the package logger, in the order of
      logger/logger_test.go: Debug writes nothing at the initial level; every
      level of `AllLevels` reads back after it is set; a Debug message appears
      at level Debug and none at level Info; after the full-path mode is
      chosen the level is kept and a warning names the caller by its full
      path, and after the default mode is chosen again, by its base name. */
  method LevelScenario(message: string, caller: CallerLookup)
    returns (initially: seq<Entry>, read: seq<Level>, atDebug: seq<Entry>, atInfo: seq<Entry>, kept: Level,
             warned: seq<Entry>, warnedBase: seq<Entry>)
    ensures initially == []
    ensures read == AllLevels
    ensures atDebug == [Entry(Debug, message, Prettify(false, caller).1)]
    ensures atInfo == []
    ensures kept == Info
    ensures warned == [Entry(Warn, message, Prettify(true, caller).1)]
    ensures warnedBase == [Entry(Warn, message, Prettify(false, caller).1)]
  {
    InitialThreshold();
    var lg := new Logger();
    lg.Debugf(message, caller);
    initially := lg.output;
    read := ReadBack(lg);
    lg.SetLevel(Debug);
    atDebug := Added(lg, Debug, message, caller);
    lg.SetLevel(Info);
    atInfo := Added(lg, Debug, message, caller);
    lg.SetFullpath(true);
    kept := lg.GetLevel();
    warned := Added(lg, Warn, message, caller);
    lg.SetFullpath(false);
    warnedBase := Added(lg, Warn, message, caller);
  }

  /** Sets each level of `AllLevels` in turn and reads it back. */
  method ReadBack(lg: Logger) returns (read: seq<Level>)
    modifies lg
    ensures read == AllLevels
    ensures lg.fullpath == old(lg.fullpath) && lg.output == old(lg.output)
  {
    read := [];
    for k := 0 to |AllLevels|
      invariant lg.fullpath == old(lg.fullpath) && lg.output == old(lg.output)
      invariant read == AllLevels[..k]
    {
      lg.SetLevel(AllLevels[k]);
      var got := lg.GetLevel();
      read := read + [got];
    }
  }

  /** One call of `Debugf`, `Warnf` or another leveled call, returning what
      it appended to the output. */
  method Added(lg: Logger, l: Level, message: string, caller: CallerLookup) returns (added: seq<Entry>)
    modifies lg
    ensures added == if Emits(old(lg.level), l) then [Entry(l, message, Prettify(old(lg.fullpath), caller).1)] else []
    ensures lg.level == old(lg.level) && lg.fullpath == old(lg.fullpath)
  {
    var before := lg.output;
    lg.Logf(l, message, caller);
    if Emits(old(lg.level), l) {
      AddedOne(before, Entry(l, message, Prettify(old(lg.fullpath), caller).1));
    }
    added := lg.output[|before|..];
  }

  lemma AddedOne<T>(s: seq<T>, x: T)
    ensures (s + [x])[|s|..] == [x]
  {
  }
}
