/** The logging levels of the logger package (logger/types.go, with the subset
    that logger/logger.go also declares merged into the same enumeration), their
    names and the parser that reads a name back. Both operations delegate to
    logrus, whose behaviour for these seven levels is written out here. */
module Levels {
  import opened Wrappers

  /** logrus's levels, from the most severe to the most verbose. */
  datatype Level = Panic | Fatal | Error | Warn | Info | Debug | Trace

  /** logrus's levels in the order of their numeric values. */
  const Order: seq<Level> := [Panic, Fatal, Error, Warn, Info, Debug, Trace]

  /** logrus's numeric value of a level: its place in `Order`, 0 for Panic up
      to 6 for Trace. */
  function Severity(l: Level): (n: nat)
    ensures n < |Order|
  {
    match l
    case Panic => 0
    case Fatal => 1
    case Error => 2
    case Warn => 3
    case Info => 4
    case Debug => 5
    case Trace => 6
  }

  /** Each level sits in `Order` at the place of its numeric value. */
  lemma SeverityPlace(l: Level)
    ensures Order[Severity(l)] == l
  {
  }

  lemma SeverityInjective(a: Level, b: Level)
    requires Severity(a) == Severity(b)
    ensures a == b
  {
  }

  /** The levels logger/logger.go lists as `AllLevels`: Fatal to Debug. */
  const AllLevels: seq<Level> := [Fatal, Error, Warn, Info, Debug]

  /** `Level.String`. */
  function Name(l: Level): (s: string)
    ensures s in Names
  {
    match l
    case Panic => "panic"
    case Fatal => "fatal"
    case Error => "error"
    case Warn => "warning"
    case Info => "info"
    case Debug => "debug"
    case Trace => "trace"
  }

  /** Every name `ParseLevel` accepts (after lower-casing). */
  const Names: set<string> := {"panic", "fatal", "error", "warn", "warning", "info", "debug", "trace"}

  /** No two levels print the same. */
  lemma NameInjective(a: Level, b: Level)
    requires Name(a) == Name(b)
    ensures a == b
  {
  }

  /** The names of the seven levels; Warn prints in its long form. */
  lemma NameTable()
    ensures Name(Panic) == "panic" && Name(Fatal) == "fatal" && Name(Error) == "error"
    ensures Name(Warn) == "warning" && Name(Info) == "info" && Name(Debug) == "debug"
    ensures Name(Trace) == "trace"
  {
  }

  /** Lower-casing of one character (ASCII letters only). */
  function LowerChar(c: char): char {
    if 'A' <= c <= 'Z' then (c as int - 'A' as int + 'a' as int) as char else c
  }

  /** Upper-casing of one character (ASCII letters only). */
  function UpperChar(c: char): char {
    if 'a' <= c <= 'z' then (c as int - 'a' as int + 'A' as int) as char else c
  }

  /** `strings.ToLower`, restricted to ASCII letters. */
  function ToLower(s: string): (r: string)
    ensures |r| == |s| && forall i :: 0 <= i < |s| ==> r[i] == LowerChar(s[i])
  {
    if s == [] then [] else [LowerChar(s[0])] + ToLower(s[1..])
  }

  /** `strings.ToUpper`, restricted to ASCII letters. */
  function ToUpper(s: string): (r: string)
    ensures |r| == |s| && forall i :: 0 <= i < |s| ==> r[i] == UpperChar(s[i])
  {
    if s == [] then [] else [UpperChar(s[0])] + ToUpper(s[1..])
  }

  /** Upper-casing first changes nothing the lower-casing would not. */
  lemma LowerOfUpper(s: string)
    ensures ToLower(ToUpper(s)) == ToLower(s)
  {
    var a, b := ToLower(ToUpper(s)), ToLower(s);
    assert |a| == |b|;
    forall i | 0 <= i < |s| ensures a[i] == b[i] {
      assert a[i] == LowerChar(UpperChar(s[i]));
    }
  }

  /** Go's pair `(Level, error)` as `ParseLevel` returns it. */
  datatype Parsed = Parsed(level: Level, err: Option<string>)

  const HexDigits: string := "0123456789abcdef"

  /** How `strconv.Quote` writes one character between the quotes. */
  function EscapeChar(c: char): string {
    if c == '"' then "\\\""
    else if c == '\\' then "\\\\"
    else if c == 7 as char then "\\a"
    else if c == 8 as char then "\\b"
    else if c == 12 as char then "\\f"
    else if c == '\n' then "\\n"
    else if c == '\r' then "\\r"
    else if c == '\t' then "\\t"
    else if c == 11 as char then "\\v"
    else if c < ' ' || c == 127 as char then "\\x" + [HexDigits[c as int / 16], HexDigits[c as int % 16]]
    else [c]
  }

  function Escape(s: string): string {
    if s == [] then "" else EscapeChar(s[0]) + Escape(s[1..])
  }

  /** `strconv.Quote`, the `%q` verb on a string. */
  function Quote(s: string): (q: string)
    ensures |q| >= 2 && q[0] == '"' && q[|q| - 1] == '"'
  {
    "\"" + Escape(s) + "\""
  }

  /** A string of printable characters with no quote and no backslash is quoted
      as itself between double quotes. */
  lemma {:induction false} QuotePlain(s: string)
    requires forall i :: 0 <= i < |s| ==> ' ' <= s[i] && s[i] != 127 as char && s[i] != '"' && s[i] != '\\'
    ensures Quote(s) == "\"" + s + "\""
    ensures Escape(s) == s
  {
    if s != [] {
      QuotePlain(s[1..]);
      assert s == [s[0]] + s[1..];
    }
  }

  /** The error text logrus gives for a name it does not know. */
  function InvalidLevelText(s: string): string {
    "not a valid logrus Level: " + Quote(s)
  }

  /** `ParseLevel`: the name is lower-cased and matched against the level
      names, with "warn" accepted beside "warning"; anything else yields the zero
      level (Panic) together with an error that quotes the input as given. */
  function ParseLevel(s: string): (r: Parsed)
    ensures r.err.None? <==> ToLower(s) in Names
    ensures r.err.None? ==> Name(r.level) == ToLower(s) || (ToLower(s) == "warn" && r.level == Warn)
    ensures r.err.Some? ==> r.level == Panic && r.err.value == InvalidLevelText(s)
  {
    var l := ToLower(s);
    if l == "panic" then Parsed(Panic, None)
    else if l == "fatal" then Parsed(Fatal, None)
    else if l == "error" then Parsed(Error, None)
    else if l == "warn" || l == "warning" then Parsed(Warn, None)
    else if l == "info" then Parsed(Info, None)
    else if l == "debug" then Parsed(Debug, None)
    else if l == "trace" then Parsed(Trace, None)
    else Parsed(Panic, Some(InvalidLevelText(s)))
  }

  /** A name already in lower case is its own lower-case form. */
  lemma {:induction false} LowerOfLower(s: string)
    requires forall i :: 0 <= i < |s| ==> !('A' <= s[i] <= 'Z')
    ensures ToLower(s) == s
  {
    var r := ToLower(s);
    assert |r| == |s|;
    forall i | 0 <= i < |s| ensures r[i] == s[i] {
    }
  }

  /** Round trip: every level's name parses back to that level, with no error. */
  lemma ParseName(l: Level)
    ensures ParseLevel(Name(l)) == Parsed(l, None)
  {
    NameIsLower(l);
    var n := Name(l);
    assert n != "warn";
    NameInjective(ParseLevel(n).level, l);
  }

  /** Level names are written in lower case. */
  lemma NameIsLower(l: Level)
    ensures ToLower(Name(l)) == Name(l)
  {
    LowerOfLower(Name(l));
  }

  /** Parsing ignores case: two spellings that differ only in the case of their
      letters parse to the same level, and both succeed or both fail. */
  lemma ParseIgnoresCase(s: string, t: string)
    requires ToLower(s) == ToLower(t)
    ensures ParseLevel(s).level == ParseLevel(t).level
    ensures ParseLevel(s).err.None? == ParseLevel(t).err.None?
  {
  }

  /** The upper-case name of every level parses to that level as well. */
  lemma ParseUpperName(l: Level)
    ensures ParseLevel(ToUpper(Name(l))) == Parsed(l, None)
  {
    LowerOfUpper(Name(l));
    ParseName(l);
    ParseIgnoresCase(ToUpper(Name(l)), Name(l));
  }

  /** "warn" is accepted beside "warning", in either case. */
  lemma ParseWarnAlias()
    ensures ParseLevel("warn") == Parsed(Warn, None)
    ensures ParseLevel("WARN") == Parsed(Warn, None)
    ensures ParseLevel("warning") == Parsed(Warn, None)
  {
    LowerOfLower("warn");
    assert ToLower("WARN") == "warn";
    ParseName(Warn);
  }

  /** A lower-case name that is not a level name gives Panic and an error
      quoting the input. */
  lemma ParseUnknownName(s: string)
    requires forall i :: 0 <= i < |s| ==> 'a' <= s[i] <= 'z'
    requires s !in Names
    ensures ParseLevel(s) == Parsed(Panic, Some("not a valid logrus Level: " + Quote(s)))
    ensures Quote(s) == "\"" + s + "\""
  {
    LowerOfLower(s);
    QuotePlain(s);
  }

  /** The unknown names of logger/types_test.go: each gives Panic and an
      error quoting it. */
  lemma ParseInvalid()
    ensures ParseLevel("invalid") == Parsed(Panic, Some(InvalidLevelText("invalid")))
  {
    LowerOfLower("invalid");
    assert "invalid" !in Names by {
      assert forall n | n in Names :: |n| != 7 || n[0] != 'i';
    }
  }

  lemma ParseFoo()
    ensures ParseLevel("foo") == Parsed(Panic, Some(InvalidLevelText("foo")))
    ensures Quote("foo") == "\"foo\""
  {
    var s := "foo";
    assert s !in Names by {
      assert forall n | n in Names :: |n| > 3;
    }
    ParseUnknownName(s);
  }
}
