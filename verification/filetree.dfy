/** The part of the operating system that tester/setupdir.go relies on: path
    texts and how they resolve, and a file tree with a working directory, given
    as a map from clean absolute paths to nodes. File modes, symbolic links,
    open descriptors and byte-level copying are not modelled; a file is its
    content. */
module FileSystem {
  import opened Wrappers
  import opened Text

  // ---------------------------------------------------------------------
  // Paths

  /** A component of a clean path: not empty, not `.` or `..`, no `/`. */
  predicate IsName(s: string) {
    s != "" && s != "." && s != ".." && '/' !in s
  }

  type Name = s: string | IsName(s) witness "a"

  /** A clean absolute path as its components from the root; the root is []. */
  type Path = seq<Name>

  /** `filepath.Dir` of a clean absolute path: the root is its own parent. */
  function Parent(p: Path): (r: Path)
    ensures p == [] ==> r == []
    ensures p != [] ==> |r| == |p| - 1 && r + [p[|p| - 1]] == p
  {
    if p == [] then [] else p[..|p| - 1]
  }

  /** Whether `k` is `p` or lies under it. */
  predicate IsPrefix(p: Path, k: Path) {
    |p| <= |k| && k[..|p|] == p
  }

  /** The components of `p`, each preceded by a slash. */
  function Slashed(p: Path): (s: string)
    ensures |s| >= 2 * |p|
    ensures p != [] ==> s[0] == '/'
  {
    if p == [] then "" else Slashed(p[..|p| - 1]) + "/" + p[|p| - 1]
  }

  /** The text of a path: "/" for the root, "/a/b" otherwise. */
  function PathText(p: Path): (s: string)
    ensures s != [] && s[0] == '/'
  {
    if p == [] then "/" else Slashed(p)
  }

  /** A path one component longer has a longer text. */
  lemma PathTextGrows(p: Path, n: Name)
    ensures |PathText(p + [n])| > |PathText(p)|
  {
    assert (p + [n])[..|p|] == p;
  }

  /** The text of a path is at least as long as the text of any path above it. */
  lemma {:induction false} PathTextMonotone(p: Path, j: nat)
    requires j <= |p|
    ensures |PathText(p[..j])| <= |PathText(p)|
    decreases |p| - j
  {
    if j < |p| {
      PathTextMonotone(p, j + 1);
      assert p[..j + 1] == p[..j] + [p[j]];
      PathTextGrows(p[..j], p[j]);
    } else {
      assert p[..j] == p;
    }
  }

  /** `strings.Split(s, "/")`. */
  function Split(s: string): (r: seq<string>)
    ensures |r| >= 1 && forall i :: 0 <= i < |r| ==> '/' !in r[i]
  {
    var i := LastIndex(s, '/');
    if i < 0 then [s] else Split(s[..i]) + [s[i + 1..]]
  }

  /** A text with no slash splits into itself. */
  lemma SplitName(s: string)
    requires '/' !in s
    ensures Split(s) == [s]
  {
  }

  /** The last component of a split is what follows the last slash. */
  lemma SplitLast(a: string, b: string)
    requires '/' !in b
    ensures Split(a + "/" + b) == Split(a) + [b]
  {
    var s := a + "/" + b;
    assert s == a + ['/'] + b;
    LastIndexOfJoin(a, '/', b);
    assert s[..|a|] == a && s[|a| + 1..] == b;
  }

  /** Splitting at a slash splits the two sides independently. */
  lemma {:induction false} SplitJoin(a: string, b: string)
    ensures Split(a + "/" + b) == Split(a) + Split(b)
    decreases |b|
  {
    var i := LastIndex(b, '/');
    if i < 0 {
      SplitLast(a, b);
      SplitName(b);
    } else {
      var b1, b2 := b[..i], b[i + 1..];
      assert b == b1 + "/" + b2;
      assert a + "/" + b == (a + "/" + b1) + "/" + b2;
      SplitLast(a + "/" + b1, b2);
      SplitLast(b1, b2);
      SplitJoin(a, b1);
    }
  }

  /** One component applied to a directory, as the kernel resolves it and as
      `filepath.Clean` does lexically: "" and "." stay, ".." goes up (never
      above the root), any other component goes down. */
  function Step(p: Path, c: string): Path
    requires '/' !in c
  {
    if c == "" || c == "." then p else if c == ".." then Parent(p) else p + [c]
  }

  /** The components `cs`, applied from left to right to `p`. */
  function Walk(p: Path, cs: seq<string>): Path
    requires forall i :: 0 <= i < |cs| ==> '/' !in cs[i]
  {
    if cs == [] then p else Step(Walk(p, cs[..|cs| - 1]), cs[|cs| - 1])
  }

  lemma {:induction false} WalkAppend(p: Path, a: seq<string>, b: seq<string>)
    requires forall i :: 0 <= i < |a| ==> '/' !in a[i]
    requires forall i :: 0 <= i < |b| ==> '/' !in b[i]
    ensures Walk(p, a + b) == Walk(Walk(p, a), b)
    decreases |b|
  {
    if b == [] {
      assert a + b == a;
    } else {
      assert (a + b)[..|a + b| - 1] == a + b[..|b| - 1];
      WalkAppend(p, a, b[..|b| - 1]);
    }
  }

  /** Components that are all names descend, one level each. */
  lemma {:induction false} WalkNames(p: Path, q: Path)
    ensures Walk(p, q) == p + q
    decreases |q|
  {
    if q != [] {
      WalkNames(p, q[..|q| - 1]);
      assert p + q[..|q| - 1] + [q[|q| - 1]] == p + q;
    }
  }

  /** Components with no `..` never leave the directory they start from. */
  lemma {:induction false} WalkStaysBelow(p: Path, cs: seq<string>)
    requires forall i :: 0 <= i < |cs| ==> '/' !in cs[i]
    requires ".." !in cs
    ensures IsPrefix(p, Walk(p, cs))
    decreases |cs|
  {
    if cs != [] {
      assert cs[|cs| - 1] in cs;
      WalkStaysBelow(p, cs[..|cs| - 1]);
    }
  }

  lemma ConsSnoc<T>(a: T, q: seq<T>, n: T, p: seq<T>)
    requires p == q + [n]
    ensures ([a] + q) + [n] == [a] + p
  {
  }

  lemma {:induction false} SplitSlashed(p: Path)
    ensures Split(Slashed(p)) == [""] + p
    decreases |p|
  {
    if p != [] {
      var q, n := p[..|p| - 1], p[|p| - 1];
      assert p == q + [n];
      ConsSnoc<string>("", q, n, p);
      SplitSlashed(q);
      SplitLast(Slashed(q), n);
    } else {
      assert LastIndex("", '/') == -1;
    }
  }

  /** The path a path text names when the working directory is `cwd`:
      absolute texts start from the root, relative ones from `cwd`. */
  function Resolve(cwd: Path, s: string): Path {
    Walk(if s != [] && s[0] == '/' then [] else cwd, Split(s))
  }

  /** The text of a path names that path, whatever the working directory. */
  lemma ResolvePathText(cwd: Path, p: Path)
    ensures Resolve(cwd, PathText(p)) == p
  {
    if p == [] {
      SplitJoin("", "");
      assert "" + "/" + "" == "/";
      assert Split("") == [""];
      assert Walk([], [""]) == [];
    } else {
      SplitSlashed(p);
      WalkAppend([], [""], p);
      assert Walk([], [""]) == [];
      WalkNames([], p);
    }
  }

  /** `filepath.Join(PathText(p), x)` names `p` walked by the components of `x`. */
  lemma ResolveJoin(cwd: Path, p: Path, x: string)
    ensures Resolve(cwd, PathText(p) + "/" + x) == Walk(p, Split(x))
  {
    var t := PathText(p);
    SplitJoin(t, x);
    assert (t + "/" + x)[0] == '/';
    WalkAppend([], Split(t), Split(x));
    ResolvePathText(cwd, p);
  }

  /** Joining a directory and a name names the entry of that directory. */
  lemma ResolveJoinName(cwd: Path, p: Path, n: Name)
    ensures Resolve(cwd, PathText(p) + "/" + n) == p + [n]
  {
    ResolveJoin(cwd, p, n);
    SplitName(n);
    WalkNames(p, [n]);
  }

  /** `filepath.Base`: the last component after trailing slashes are removed;
      "." for the empty text and "/" for a text of slashes only. */
  function Base(s: string): (b: string)
    ensures b != [] && (s != [] ==> '/' !in b || b == "/")
  {
    if s == [] then "."
    else
      var t := TrimRight(s, {'/'});
      TrimRightShape(s, {'/'});
      if t == [] then "/" else AfterLast(t, '/')
  }

  /** The base of the text of a path other than the root is its last
      component. */
  lemma BaseOfPath(p: Path)
    requires p != []
    ensures Base(PathText(p)) == p[|p| - 1]
  {
    var n := p[|p| - 1];
    var t := Slashed(p[..|p| - 1]);
    var s := PathText(p);
    assert s == t + "/" + n;
    assert s[|s| - 1] == n[|n| - 1] && n[|n| - 1] in n;
    assert TrimRight(s, {'/'}) == s;
    assert s == t + ['/'] + n;
    AfterLastOfJoin(t, '/', n);
  }

  // ---------------------------------------------------------------------
  // The tree

  datatype Node = File(content: string) | Dir

  /** Linux's `PATH_MAX`: a path text must be shorter than this. */
  const PathMax: nat := 4096

  predicate Fits(p: Path) {
    |PathText(p)| < PathMax
  }

  /** A well-formed tree: the root is a directory, every other entry sits in a
      directory, and every path is short enough for the kernel. */
  predicate Closed(m: map<Path, Node>) {
    && [] in m && m[[]] == Dir
    && ParentsAreDirs(m)
    && (forall k :: k in m ==> Fits(k))
  }

  /** Every entry other than the root sits in a directory. The quantifier is
      triggered by `Parent(k)` alone: triggering it by `k in m` as well would
      make every parent it yields a new instance. */
  predicate ParentsAreDirs(m: map<Path, Node>) {
    forall k {:trigger Parent(k)} :: k in m && k != [] ==> Parent(k) in m && m[Parent(k)] == Dir
  }

  /** Everything above an entry of a well-formed tree is a directory. */
  lemma {:induction false} AncestorIsDir(m: map<Path, Node>, k: Path, j: nat)
    requires Closed(m) && k in m && j < |k|
    ensures k[..j] in m && m[k[..j]] == Dir
    decreases |k| - j
  {
    if j == |k| - 1 {
      assert k[..j] == Parent(k);
    } else {
      assert Parent(k)[..j] == k[..j];
      AncestorIsDir(m, Parent(k), j);
    }
  }

  /** The error numbers the copy can meet, and their texts (`syscall.Errno`). */
  datatype Errno = NoEntry | NotDirectory | IsDirectory | NameTooLong

  function ErrnoText(e: Errno): string {
    match e
    case NoEntry => "no such file or directory"
    case NotDirectory => "not a directory"
    case IsDirectory => "is a directory"
    case NameTooLong => "file name too long"
  }

  /** `*fs.PathError`: the operation, the path and the error number. */
  datatype PathError = PathError(op: string, path: string, errno: Errno)

  function ErrorText(e: PathError): string {
    e.op + " " + e.path + ": " + ErrnoText(e.errno)
  }

  /** The deepest file among `p` and the directories above it, if any. */
  function FileOn(m: map<Path, Node>, p: Path): (f: Option<Path>)
    ensures f.Some? ==> IsPrefix(f.value, p) && f.value in m && m[f.value].File?
    ensures f.None? ==> forall j :: 0 <= j <= |p| ==> !(p[..j] in m && m[p[..j]].File?)
  {
    if p in m && m[p].File? then Some(p)
    else if p == [] then None
    else
      var f := FileOn(m, Parent(p));
      assert forall j :: 0 <= j < |p| ==> Parent(p)[..j] == p[..j];
      assert p[..|p|] == p;
      f
  }

  /** The error number of a lookup of a path that is not in the tree. */
  function LookupErrno(m: map<Path, Node>, p: Path): Errno {
    if !Fits(p) then NameTooLong
    else if FileOn(m, Parent(p)).Some? then NotDirectory
    else NoEntry
  }

  /** The tree with `p` and every directory above it present as directories. */
  function WithDirs(m: map<Path, Node>, p: Path): (r: map<Path, Node>)
    ensures forall k :: k in r <==> k in m || IsPrefix(k, p)
    ensures forall k :: k in r ==> r[k] == if IsPrefix(k, p) then Dir else m[k]
  {
    var ps := set j | 0 <= j <= |p| :: p[..j];
    assert forall k :: IsPrefix(k, p) ==> k in ps by {
      forall k | IsPrefix(k, p) ensures k in ps {
        assert k == p[..|k|];
      }
    }
    map k | k in m.Keys + ps :: if IsPrefix(k, p) then Dir else m[k]
  }

  /** The number of leading components of `p` whose path still fits. */
  function LongestFit(p: Path): (n: nat)
    ensures n <= |p|
  {
    if p == [] || Fits(p) then |p| else LongestFit(Parent(p))
  }

  lemma {:induction false} LongestFitSpec(p: Path)
    ensures var n := LongestFit(p);
      Fits(p[..n]) && (n < |p| ==> !Fits(p[..n + 1]))
  {
    var n := LongestFit(p);
    if p == [] || Fits(p) {
      assert p[..|p|] == p;
    } else {
      LongestFitSpec(Parent(p));
      InitPrefixes(p, n);
    }
  }

  /** The leading parts of `p` and of `p` without its last element agree. */
  lemma InitPrefixes<T>(p: seq<T>, n: nat)
    requires n < |p|
    ensures p[..|p| - 1][..n] == p[..n]
    ensures n + 1 < |p| ==> p[..|p| - 1][..n + 1] == p[..n + 1]
    ensures n + 1 == |p| ==> p[..n + 1] == p
  {
  }

  /** What `os.MkdirAll(p)` does: when a file stands at `p` or above it,
      nothing, and the error names that file; otherwise every missing
      directory down to `p` is created, stopping with an error before the
      first one whose path is too long. */
  function MakeDirs(m: map<Path, Node>, p: Path): (r: (map<Path, Node>, Option<PathError>))
    ensures r.1.None? <==> FileOn(m, p).None? && Fits(p)
  {
    match FileOn(m, p)
    case Some(f) => (m, Some(PathError("mkdir", PathText(f), NotDirectory)))
    case None =>
      var n := LongestFit(p);
      LongestFitSpec(p);
      if n == |p| then
        assert p[..n] == p;
        (WithDirs(m, p), None)
      else (WithDirs(m, p[..n]), Some(PathError("mkdir", PathText(p[..n + 1]), NameTooLong)))
  }

  /** Adding the directories down to a path that fits, with no file on the
      way, keeps a tree well formed and changes no existing entry. */
  lemma WithDirsClosed(m: map<Path, Node>, q: Path)
    requires Closed(m) && Fits(q) && FileOn(m, q).None?
    ensures Closed(WithDirs(m, q))
    ensures forall k :: k in m ==> WithDirs(m, q)[k] == m[k]
  {
    WithDirsParents(m, q);
    WithDirsFit(m, q);
    WithDirsUnchanged(m, q);
  }

  lemma WithDirsParents(m: map<Path, Node>, q: Path)
    requires Closed(m)
    ensures ParentsAreDirs(WithDirs(m, q))
  {
    var r := WithDirs(m, q);
    forall k | k in r && k != []
      ensures Parent(k) in r && r[Parent(k)] == Dir
    {
      if IsPrefix(k, q) {
        assert IsPrefix(Parent(k), q);
      } else {
        assert k in m && Parent(k) in m && m[Parent(k)] == Dir;
      }
    }
  }

  lemma WithDirsFit(m: map<Path, Node>, q: Path)
    requires Closed(m) && Fits(q)
    ensures forall k :: k in WithDirs(m, q) ==> Fits(k)
  {
    forall k | IsPrefix(k, q)
      ensures Fits(k)
    {
      PathTextMonotone(q, |k|);
    }
  }

  lemma WithDirsUnchanged(m: map<Path, Node>, q: Path)
    requires FileOn(m, q).None? && forall k :: k in m ==> m[k] == Dir || m[k].File?
    ensures forall k :: k in m ==> WithDirs(m, q)[k] == m[k]
  {
    forall k | k in m && IsPrefix(k, q)
      ensures m[k] == Dir
    {
      assert k == q[..|k|];
    }
  }

  /** `MakeDirs` keeps a tree well formed, never changes or removes an
      existing entry, adds only directories at or above `p`, and on success
      leaves `p` a directory. When a file is in the way it changes nothing. */
  lemma MakeDirsKeeps(m: map<Path, Node>, p: Path)
    requires Closed(m)
    ensures var (m', e) := MakeDirs(m, p);
      && Closed(m')
      && (forall k :: k in m ==> k in m' && m'[k] == m[k])
      && (forall k :: k in m' && k !in m ==> IsPrefix(k, p) && m'[k] == Dir)
      && (e.None? ==> p in m' && m'[p] == Dir)
      && (FileOn(m, p).Some? ==> m' == m)
  {
    if FileOn(m, p).None? {
      var n := LongestFit(p);
      LongestFitSpec(p);
      var q := p[..n];
      FileOnPrefix(m, p, n);
      WithDirsClosed(m, q);
      PrefixOfPrefix(q, p);
      if n == |p| {
        assert q == p;
      }
    }
  }

  lemma FileOnPrefix(m: map<Path, Node>, p: Path, n: nat)
    requires n <= |p| && FileOn(m, p).None?
    ensures FileOn(m, p[..n]).None?
  {
    var q := p[..n];
    assert forall j :: 0 <= j <= |q| ==> q[..j] == p[..j];
  }

  lemma PrefixOfPrefix(q: Path, p: Path)
    requires IsPrefix(q, p)
    ensures forall k :: IsPrefix(k, q) ==> IsPrefix(k, p)
  {
  }

  // ---------------------------------------------------------------------
  // Single operations of the `os` package

  predicate IsDirAt(m: map<Path, Node>, p: Path) {
    p in m && m[p] == Dir
  }

  /** The error of `os.Open(p)`, or none when `p` exists. */
  function OpenError(m: map<Path, Node>, p: Path): (e: Option<PathError>)
    ensures e.None? <==> p in m
  {
    if p in m then None else Some(PathError("open", PathText(p), LookupErrno(m, p)))
  }

  /** `os.Create(p)`: an existing file is truncated, a new one is made in an
      existing directory; a directory cannot be opened for writing. */
  function Created(m: map<Path, Node>, p: Path): (r: (map<Path, Node>, Option<PathError>))
    ensures r.1.None? <==> (p in m && m[p].File?) || (p !in m && IsDirAt(m, Parent(p)) && Fits(p))
    ensures r.1.None? ==> r.0 == m[p := File("")]
    ensures r.1.Some? ==> r.0 == m
  {
    if IsDirAt(m, p) then (m, Some(PathError("open", PathText(p), IsDirectory)))
    else if p in m || (IsDirAt(m, Parent(p)) && Fits(p)) then (m[p := File("")], None)
    else (m, Some(PathError("open", PathText(p), LookupErrno(m, p))))
  }

  /** `io.Copy` from the file opened at `src` into the one opened at `dst`:
      reading a directory fails. */
  function CopiedInto(m: map<Path, Node>, src: Path, dst: Path): (r: (map<Path, Node>, Option<PathError>))
    requires src in m
    ensures r.1.None? <==> m[src].File?
    ensures r.1.None? ==> r.0 == m[dst := m[src]]
    ensures r.1.Some? ==> r.0 == m
  {
    if m[src] == Dir then (m, Some(PathError("read", PathText(src), IsDirectory)))
    else (m[dst := m[src]], None)
  }

  /** `os.Stat` of a path text: the empty text names nothing. */
  function StatError(m: map<Path, Node>, cwd: Path, s: string): (e: Option<PathError>)
    ensures e.None? <==> s != "" && Resolve(cwd, s) in m
  {
    if s == "" then Some(PathError("stat", s, NoEntry))
    else
      var p := Resolve(cwd, s);
      if p in m then None else Some(PathError("stat", s, LookupErrno(m, p)))
  }

  /** Writing a file where a file is, or where its directory exists and its
      path fits, keeps a tree well formed and every directory in place. */
  lemma ClosedWithFile(m: map<Path, Node>, p: Path, c: string)
    requires Closed(m)
    requires (p in m && m[p].File?) || (p !in m && IsDirAt(m, Parent(p)) && Fits(p))
    ensures Closed(m[p := File(c)])
    ensures forall k :: IsDirAt(m, k) ==> IsDirAt(m[p := File(c)], k)
  {
    WithFileParents(m, p, c);
    WithFileFits(m, p, c);
  }

  lemma WithFileParents(m: map<Path, Node>, p: Path, c: string)
    requires [] in m && m[[]] == Dir
    requires ParentsAreDirs(m)
    requires (p in m && m[p].File?) || (p !in m && IsDirAt(m, Parent(p)))
    ensures var m' := m[p := File(c)]; [] in m' && m'[[]] == Dir && ParentsAreDirs(m')
  {
    var m' := m[p := File(c)];
    assert p != [];
    forall k | k in m' && k != []
      ensures Parent(k) in m' && m'[Parent(k)] == Dir
    {
      if k != p {
        assert Parent(k) in m;
      }
    }
  }

  lemma WithFileFits(m: map<Path, Node>, p: Path, c: string)
    requires forall k :: k in m ==> Fits(k)
    requires p in m || Fits(p)
    ensures forall k :: k in m[p := File(c)] ==> Fits(k)
  {
  }

  // ---------------------------------------------------------------------
  // Directory listings

  /** The names of the entries of directory `p`. */
  function Children(m: map<Path, Node>, p: Path): (s: set<Name>)
    ensures forall n :: n in s <==> p + [n] in m
  {
    var s := set k | k in m && |k| == |p| + 1 && k[..|p|] == p :: k[|p|];
    assert forall n :: p + [n] in m ==> (p + [n])[..|p|] == p && (p + [n])[|p|] == n;
    assert forall k :: k in m && |k| == |p| + 1 && k[..|p|] == p ==> k == p + [k[|p|]];
    s
  }

  predicate IsLeast(x: string, s: set<Name>) {
    x in s && forall y :: y in s ==> x == y || Less(x, y)
  }

  lemma {:induction false} LeastExists(s: set<Name>)
    requires s != {}
    ensures exists x :: IsLeast(x, s)
    decreases |s|
  {
    var y :| y in s;
    var rest := s - {y};
    if rest == {} {
      assert forall z :: z in s ==> z == y || z in rest;
      assert IsLeast(y, s);
    } else {
      LeastExists(rest);
      var x :| IsLeast(x, rest);
      if Less(y, x) {
        forall z | z in s
          ensures y == z || Less(y, z)
        {
          if z != y && z != x {
            LessTransitive(y, x, z);
          }
        }
        assert IsLeast(y, s);
      } else {
        LessTotal(x, y);
        assert IsLeast(x, s);
      }
    }
  }

  lemma LeastUnique(x: string, y: string, s: set<Name>)
    requires IsLeast(x, s) && IsLeast(y, s)
    ensures x == y
  {
    if x != y {
      LessTransitive(x, y, x);
      LessIrreflexive(x);
    }
  }

  ghost function Least(s: set<Name>): (x: Name)
    requires s != {}
    ensures IsLeast(x, s)
  {
    LeastExists(s);
    var x: Name :| IsLeast(x, s);
    x
  }

  predicate StrictlySorted(r: seq<string>) {
    forall i, j :: 0 <= i < j < |r| ==> Less(r[i], r[j])
  }

  /** The names of `s` in increasing order. */
  ghost function Sorted(s: set<Name>): seq<Name>
    decreases |s|
  {
    if s == {} then [] else var x := Least(s); [x] + Sorted(s - {x})
  }

  /** `Sorted` lists every name of the set once, in strictly increasing order. */
  lemma {:induction false} SortedSpec(s: set<Name>)
    ensures var r := Sorted(s);
      |r| == |s| && (forall n :: n in r <==> n in s) && StrictlySorted(r)
    decreases |s|
  {
    if s != {} {
      var x := Least(s);
      var r' := Sorted(s - {x});
      SortedSpec(s - {x});
      forall i | 0 <= i < |r'| ensures Less(x, r'[i]) {
        assert r'[i] in r';
      }
      ConsStrictlySorted(x, r');
    }
  }

  lemma ConsStrictlySorted(x: string, r: seq<string>)
    requires StrictlySorted(r) && forall i :: 0 <= i < |r| ==> Less(x, r[i])
    ensures StrictlySorted([x] + r)
  {
    var r2 := [x] + r;
    forall i, j | 0 <= i < j < |r2| ensures Less(r2[i], r2[j]) {
      if i == 0 {
        assert r2[j] == r[j - 1];
      } else {
        assert r2[i] == r[i - 1] && r2[j] == r[j - 1];
      }
    }
  }

  /** One entry as `os.ReadDir` reports it. */
  datatype DirEntry = DirEntry(name: Name, isDir: bool)

  function EntriesOf(m: map<Path, Node>, p: Path, names: seq<Name>): (es: seq<DirEntry>)
    ensures |es| == |names|
    ensures forall i :: 0 <= i < |names| ==> es[i] == DirEntry(names[i], IsDirAt(m, p + [names[i]]))
  {
    seq(|names|, i requires 0 <= i < |names| => DirEntry(names[i], IsDirAt(m, p + [names[i]])))
  }

  /** What `os.ReadDir(p)` lists for a directory: its entries sorted by name. */
  ghost function Listing(m: map<Path, Node>, p: Path): seq<DirEntry> {
    EntriesOf(m, p, Sorted(Children(m, p)))
  }

  /** The listing names every entry of the directory exactly once, in strictly
      increasing order, and says which are directories. */
  lemma ListingSpec(m: map<Path, Node>, p: Path)
    ensures var es := Listing(m, p);
      && (forall n :: p + [n] in m <==> exists i :: 0 <= i < |es| && es[i].name == n)
      && (forall i, j :: 0 <= i < j < |es| ==> Less(es[i].name, es[j].name))
      && (forall i :: 0 <= i < |es| ==> p + [es[i].name] in m && es[i].isDir == (m[p + [es[i].name]] == Dir))
  {
    var names := Sorted(Children(m, p));
    SortedSpec(Children(m, p));
    var es := Listing(m, p);
    forall n | p + [n] in m
      ensures exists i :: 0 <= i < |es| && es[i].name == n
    {
      var i :| 0 <= i < |names| && names[i] == n;
      assert es[i].name == n;
    }
  }

  /** The error of `os.ReadDir(p)`: opening fails for a missing path, and
      reading the entries fails for a file. */
  function ReadDirError(m: map<Path, Node>, p: Path): (e: Option<PathError>)
    ensures e.None? <==> IsDirAt(m, p)
  {
    if p !in m then Some(PathError("open", PathText(p), LookupErrno(m, p)))
    else if m[p].File? then Some(PathError("readdirent", PathText(p), NotDirectory))
    else None
  }

  // ---------------------------------------------------------------------
  // The file system as the program sees it

  /** The files and directories of the machine and the working directory of
      the process. */
  class FileTree {
    var nodes: map<Path, Node>
    var cwd: Path

    ghost predicate Valid()
      reads this
    {
      Closed(nodes) && IsDirAt(nodes, cwd)
    }

    constructor (nodes0: map<Path, Node>, cwd0: Path)
      requires Closed(nodes0) && IsDirAt(nodes0, cwd0)
      ensures Valid() && nodes == nodes0 && cwd == cwd0
    {
      nodes, cwd := nodes0, cwd0;
    }

    /** `os.Getwd`. */
    method Getwd() returns (p: Path)
      ensures p == cwd
    {
      p := cwd;
    }

    /** `os.Chdir(PathText(p))`. */
    method Chdir(p: Path) returns (err: Option<PathError>)
      requires Valid()
      modifies this
      ensures Valid() && nodes == old(nodes)
      ensures err.None? <==> IsDirAt(nodes, p)
      ensures cwd == if err.None? then p else old(cwd)
    {
      if IsDirAt(nodes, p) {
        cwd, err := p, None;
      } else {
        err := Some(PathError("chdir", PathText(p), if p in nodes then NotDirectory else LookupErrno(nodes, p)));
      }
    }

    /** `os.Stat(s)`: the node the text names, or the error. */
    method Stat(s: string) returns (info: Option<Node>, err: Option<PathError>)
      ensures err == StatError(nodes, cwd, s)
      ensures err.None? ==> info == Some(nodes[Resolve(cwd, s)])
      ensures err.Some? ==> info == None
    {
      err := StatError(nodes, cwd, s);
      info := if err.None? then Some(nodes[Resolve(cwd, s)]) else None;
    }

    /** `os.MkdirAll(PathText(p), os.ModePerm)`. */
    method MkdirAll(p: Path) returns (err: Option<PathError>)
      requires Valid()
      modifies this
      ensures Valid() && cwd == old(cwd)
      ensures (nodes, err) == MakeDirs(old(nodes), p)
    {
      MakeDirsKeeps(nodes, p);
      var r := MakeDirs(nodes, p);
      nodes, err := r.0, r.1;
    }

    /** `os.Open(PathText(p))` for reading; only its error matters here. */
    method Open(p: Path) returns (err: Option<PathError>)
      ensures err == OpenError(nodes, p)
    {
      err := OpenError(nodes, p);
    }

    /** `os.Create(PathText(p))`. */
    method Create(p: Path) returns (err: Option<PathError>)
      requires Valid()
      modifies this
      ensures Valid() && cwd == old(cwd)
      ensures (nodes, err) == Created(old(nodes), p)
    {
      var r := Created(nodes, p);
      if r.1.None? {
        ClosedWithFile(nodes, p, "");
      }
      nodes, err := r.0, r.1;
    }

    /** `io.Copy` between an opened `src` and a created `dst`. */
    method Copy(src: Path, dst: Path) returns (err: Option<PathError>)
      requires Valid() && src in nodes && dst in nodes && nodes[dst].File?
      modifies this
      ensures Valid() && cwd == old(cwd)
      ensures (nodes, err) == CopiedInto(old(nodes), src, dst)
    {
      var r := CopiedInto(nodes, src, dst);
      if r.1.None? {
        ClosedWithFile(nodes, dst, nodes[src].content);
      }
      nodes, err := r.0, r.1;
    }

    /** `os.ReadDir(PathText(p))`: the directory's entries, sorted by name. */
    method ReadDir(p: Path) returns (entries: seq<DirEntry>, err: Option<PathError>)
      ensures err == ReadDirError(nodes, p)
      ensures entries == if err.None? then Listing(nodes, p) else []
    {
      err := ReadDirError(nodes, p);
      if err.Some? {
        return [], err;
      }
      var names: seq<Name> := [];
      var rest := Children(nodes, p);
      while rest != {}
        invariant names + Sorted(rest) == Sorted(Children(nodes, p))
        decreases |rest|
      {
        LeastExists(rest);
        var x: Name :| IsLeast(x, rest);
        LeastUnique(x, Least(rest), rest);
        names := names + [x];
        rest := rest - {x};
      }
      entries := EntriesOf(nodes, p, names);
    }
  }
}
