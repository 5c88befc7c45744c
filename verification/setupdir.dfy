/** tester/setupdir.go: finding the project root and copying files and
    directories into a test's temporary directory. Each operation is a method
    over a `FileTree` proved against a function that gives the tree and the
    error it ends with; what the copy achieves is proved about those
    functions. */
module SetupDirs {
  import opened Wrappers
  import opened Text
  import opened FileSystem

  // ---------------------------------------------------------------------
  // Finding the project root

  const GoMod: Name := "go.mod"

  /** The nearest directory, `dir` itself or one above it, holding `go.mod`. */
  function ProjectRoot(m: map<Path, Node>, dir: Path): Option<Path>
    decreases |dir|
  {
    if dir + [GoMod] in m then Some(dir)
    else if dir == [] then None
    else ProjectRoot(m, Parent(dir))
  }

  /** The root found holds `go.mod`, lies at or above the start, and no
      directory between them holds one; no root is found exactly when no
      directory at or above the start holds `go.mod`. */
  lemma ProjectRootSpec(m: map<Path, Node>, dir: Path)
    ensures var r := ProjectRoot(m, dir);
      && (r.Some? ==>
            && IsPrefix(r.value, dir) && r.value + [GoMod] in m
            && forall j :: |r.value| < j <= |dir| ==> dir[..j] + [GoMod] !in m)
      && (r.None? <==> forall j :: 0 <= j <= |dir| ==> dir[..j] + [GoMod] !in m)
  {
    ProjectRootFound(m, dir);
    ProjectRootMissing(m, dir);
  }

  lemma {:induction false} ProjectRootFound(m: map<Path, Node>, dir: Path)
    ensures var r := ProjectRoot(m, dir);
      r.Some? ==>
        && IsPrefix(r.value, dir) && r.value + [GoMod] in m
        && forall j :: |r.value| < j <= |dir| ==> dir[..j] + [GoMod] !in m
    decreases |dir|
  {
    assert dir[..|dir|] == dir;
    if dir + [GoMod] !in m && dir != [] {
      var q := Parent(dir);
      ProjectRootFound(m, q);
      assert forall j :: 0 <= j <= |q| ==> q[..j] == dir[..j];
    }
  }

  lemma {:induction false} ProjectRootMissing(m: map<Path, Node>, dir: Path)
    ensures ProjectRoot(m, dir).None? <==> forall j :: 0 <= j <= |dir| ==> dir[..j] + [GoMod] !in m
    decreases |dir|
  {
    if dir + [GoMod] in m {
      assert dir[..|dir|] == dir;
    } else if dir == [] {
      forall j | 0 <= j <= |dir| ensures dir[..j] + [GoMod] !in m {
        assert dir[..j] == dir;
      }
    } else {
      var q := Parent(dir);
      assert q == dir[..|dir| - 1];
      ProjectRootMissing(m, q);
      if ProjectRoot(m, q).None? {
        forall j | 0 <= j <= |dir| ensures dir[..j] + [GoMod] !in m {
          if j <= |q| {
            assert q[..j] == dir[..j];
          } else {
            assert dir[..j] == dir;
          }
        }
      } else {
        var j :| 0 <= j <= |q| && q[..j] + [GoMod] in m;
        assert q[..j] == dir[..j];
      }
    }
  }

  /** `FindProjectRoot`: walks up from the working directory, looking for
      `go.mod` with `os.Stat`. None stands for the panic "project root with
      go.mod file not found". */
  method FindProjectRoot(fs: FileTree) returns (root: Option<Path>)
    requires fs.Valid()
    ensures root == ProjectRoot(fs.nodes, fs.cwd)
  {
    var dir := fs.Getwd();
    while true
      invariant ProjectRoot(fs.nodes, dir) == ProjectRoot(fs.nodes, fs.cwd)
      decreases |dir|
    {
      var _, err := fs.Stat(PathText(dir) + "/" + GoMod);
      ResolveJoinName(fs.cwd, dir, GoMod);
      if err.None? {
        return Some(dir);
      }
      var parentDir := Parent(dir);
      if parentDir == dir {
        break;
      }
      dir := parentDir;
    }
    return None;
  }

  // ---------------------------------------------------------------------
  // Copying

  /** What `copyFile(src, dst)` does: makes the directory of `dst`, opens
      `src`, creates (or truncates) `dst`, then copies the content. */
  function CopyFileResult(m: map<Path, Node>, src: Path, dst: Path): (map<Path, Node>, Option<PathError>) {
    var (m1, e1) := MakeDirs(m, Parent(dst));
    if e1.Some? then (m1, e1)
    else if src !in m1 then (m1, OpenError(m1, src))
    else
      var (m2, e2) := Created(m1, dst);
      if e2.Some? then (m2, e2)
      else CopiedInto(m2, src, dst)
  }

  /** How much longer the text of a destination may still grow. */
  function Room(p: Path): nat {
    if Fits(p) then PathMax - |PathText(p)| else 0
  }

  lemma RoomShrinks(p: Path, n: Name)
    requires Fits(p)
    ensures Room(p + [n]) < Room(p)
  {
    PathTextGrows(p, n);
  }

  /** What `copyDirectory(src, dst)` does: makes `dst`, lists `src`, then
      copies its entries in the listed order, stopping at the first error. */
  ghost function CopyDir(m: map<Path, Node>, src: Path, dst: Path): (map<Path, Node>, Option<PathError>)
    decreases Room(dst), 1, 0, 0
  {
    var (m1, e1) := MakeDirs(m, dst);
    if e1.Some? then (m1, e1)
    else if !IsDirAt(m1, src) then (m1, ReadDirError(m1, src))
    else CopyEntries(m1, src, dst, Listing(m1, src))
  }

  /** The loop of `copyDirectory` over the entries `es`. */
  ghost function CopyEntries(m: map<Path, Node>, src: Path, dst: Path, es: seq<DirEntry>): (map<Path, Node>, Option<PathError>)
    requires Fits(dst)
    decreases Room(dst), 0, |es|, 1
  {
    if es == [] then (m, None)
    else
      var (m1, e1) := EntryCopied(m, src, dst, es[0]);
      if e1.Some? then (m1, e1) else CopyEntries(m1, src, dst, es[1..])
  }

  /** One turn of that loop: a directory is copied as a directory, anything
      else as a file. */
  ghost function EntryCopied(m: map<Path, Node>, src: Path, dst: Path, e: DirEntry): (map<Path, Node>, Option<PathError>)
    requires Fits(dst)
    decreases Room(dst), 0, 0, 0
  {
    RoomShrinks(dst, e.name);
    if e.isDir then CopyDir(m, src + [e.name], dst + [e.name])
    else CopyFileResult(m, src + [e.name], dst + [e.name])
  }

  /** One turn of the loop: the first entry is copied, and the rest follow
      only when it succeeds. */
  lemma CopyEntriesStep(m: map<Path, Node>, src: Path, dst: Path, es: seq<DirEntry>)
    requires Fits(dst) && es != []
    ensures var r := EntryCopied(m, src, dst, es[0]);
      CopyEntries(m, src, dst, es) == if r.1.Some? then r else CopyEntries(r.0, src, dst, es[1..])
  {
  }

  /** What `copyPath` does: `os.Stat` of the source, then a directory or a
      file copy. Both texts are resolved against the working directory. */
  ghost function CopyPathResult(m: map<Path, Node>, cwd: Path, sourcePath: string, destinationPath: string): (map<Path, Node>, Option<PathError>) {
    var e := StatError(m, cwd, sourcePath);
    if e.Some? then (m, e)
    else
      var src := Resolve(cwd, sourcePath);
      var dst := Resolve(cwd, destinationPath);
      if m[src] == Dir then CopyDir(m, src, dst) else CopyFileResult(m, src, dst)
  }

  /** `copyFile`. */
  method CopyFile(fs: FileTree, src: Path, dst: Path) returns (err: Option<PathError>)
    requires fs.Valid()
    modifies fs
    ensures fs.Valid() && fs.cwd == old(fs.cwd)
    ensures (fs.nodes, err) == CopyFileResult(old(fs.nodes), src, dst)
  {
    err := fs.MkdirAll(Parent(dst));
    if err.Some? {
      return;
    }
    err := fs.Open(src);
    if err.Some? {
      return;
    }
    err := fs.Create(dst);
    if err.Some? {
      return;
    }
    err := fs.Copy(src, dst);
  }

  /** `copyDirectory`. */
  method CopyDirectory(fs: FileTree, src: Path, dst: Path) returns (err: Option<PathError>)
    requires fs.Valid()
    modifies fs
    ensures fs.Valid() && fs.cwd == old(fs.cwd)
    ensures (fs.nodes, err) == CopyDir(old(fs.nodes), src, dst)
    decreases Room(dst), 1, 0
  {
    err := fs.MkdirAll(dst);
    if err.Some? {
      return;
    }
    var entries;
    entries, err := fs.ReadDir(src);
    if err.Some? {
      return;
    }
    err := CopyEachEntry(fs, src, dst, entries);
  }

  /** The loop of `copyDirectory`: each entry is copied in turn, and the
      first error ends the loop. */
  method CopyEachEntry(fs: FileTree, src: Path, dst: Path, entries: seq<DirEntry>) returns (err: Option<PathError>)
    requires fs.Valid() && Fits(dst)
    modifies fs
    ensures fs.Valid() && fs.cwd == old(fs.cwd)
    ensures (fs.nodes, err) == CopyEntries(old(fs.nodes), src, dst, entries)
    decreases Room(dst), 0, 1
  {
    assert entries[0..] == entries;
    err := None;
    var i := 0;
    while i < |entries|
      invariant 0 <= i <= |entries| && err.None?
      invariant fs.Valid() && fs.cwd == old(fs.cwd)
      invariant CopyEntries(fs.nodes, src, dst, entries[i..]) == CopyEntries(old(fs.nodes), src, dst, entries)
    {
      CopyEntriesStep(fs.nodes, src, dst, entries[i..]);
      assert entries[i..][1..] == entries[i + 1..];
      err := CopyEntry(fs, src, dst, entries[i]);
      if err.Some? {
        return;
      }
      i := i + 1;
    }
  }

  /** The body of the loop of `copyDirectory`: a directory entry is copied
      as a directory, any other as a file. */
  method CopyEntry(fs: FileTree, src: Path, dst: Path, e: DirEntry) returns (err: Option<PathError>)
    requires fs.Valid() && Fits(dst)
    modifies fs
    ensures fs.Valid() && fs.cwd == old(fs.cwd)
    ensures (fs.nodes, err) == EntryCopied(old(fs.nodes), src, dst, e)
    decreases Room(dst), 0, 0
  {
    RoomShrinks(dst, e.name);
    if e.isDir {
      err := CopyDirectory(fs, src + [e.name], dst + [e.name]);
    } else {
      err := CopyFile(fs, src + [e.name], dst + [e.name]);
    }
  }

  /** `copyPath`. */
  method CopyPath(fs: FileTree, sourcePath: string, destinationPath: string) returns (err: Option<PathError>)
    requires fs.Valid()
    modifies fs
    ensures fs.Valid() && fs.cwd == old(fs.cwd)
    ensures (fs.nodes, err) == CopyPathResult(old(fs.nodes), old(fs.cwd), sourcePath, destinationPath)
  {
    var info;
    info, err := fs.Stat(sourcePath);
    if err.Some? {
      return;
    }
    var src := Resolve(fs.cwd, sourcePath);
    var dst := Resolve(fs.cwd, destinationPath);
    if info.value == Dir {
      err := CopyDirectory(fs, src, dst);
    } else {
      err := CopyFile(fs, src, dst);
    }
  }

  // ---------------------------------------------------------------------
  // What a copy changes

  /** Nothing is removed and nothing changes between file and directory. */
  ghost predicate Keeps(m: map<Path, Node>, m': map<Path, Node>) {
    forall k :: k in m ==> k in m' && (m'[k] == Dir <==> m[k] == Dir)
  }

  /** Between `m` and `m'` only `d`, what lies under it and new entries above
      it differ. */
  ghost predicate Confined(m: map<Path, Node>, m': map<Path, Node>, d: Path) {
    && (forall k :: k in m && !IsPrefix(d, k) ==> k in m' && m'[k] == m[k])
    && (forall k :: k in m' && k !in m ==> IsPrefix(d, k) || IsPrefix(k, d))
  }

  /** Whether `k` lies in, or under, an entry of `d` named in `names`. */
  predicate Below(d: Path, names: set<Name>, k: Path) {
    |d| < |k| && k[..|d|] == d && k[|d|] in names
  }

  /** Between `m` and `m'` only the entries of `d` named in `names`, and what
      lies under them, differ. */
  ghost predicate ConfinedTo(m: map<Path, Node>, m': map<Path, Node>, d: Path, names: set<Name>) {
    && (forall k :: k in m && !Below(d, names, k) ==> k in m' && m'[k] == m[k])
    && (forall k :: k in m' && k !in m ==> Below(d, names, k))
  }

  function NamesOf(es: seq<DirEntry>): set<Name> {
    set e | e in es :: e.name
  }

  lemma KeepsConfinedTrans(m1: map<Path, Node>, m2: map<Path, Node>, m3: map<Path, Node>, d: Path)
    requires Keeps(m1, m2) && Keeps(m2, m3) && Confined(m1, m2, d) && Confined(m2, m3, d)
    ensures Keeps(m1, m3) && Confined(m1, m3, d)
  {
  }

  /** The directories `MakeDirs` adds above `Parent(d)` lie above `d`. */
  lemma MakeDirsConfined(m: map<Path, Node>, p: Path, d: Path)
    requires Closed(m) && (p == d || p == Parent(d))
    ensures var m' := MakeDirs(m, p).0;
      Closed(m') && Keeps(m, m') && Confined(m, m', d)
  {
    MakeDirsKeeps(m, p);
    var m' := MakeDirs(m, p).0;
    forall k | k in m' && k !in m
      ensures IsPrefix(k, d)
    {
      PrefixOfParent(k, p, d);
    }
  }

  lemma PrefixOfParent(k: Path, p: Path, d: Path)
    requires IsPrefix(k, p) && (p == d || p == Parent(d))
    ensures IsPrefix(k, d)
  {
    if p != d {
      assert d[..|p|] == p;
      assert d[..|k|] == d[..|p|][..|k|];
    }
  }

  /** Writing a file at `d` changes only `d`. */
  lemma WriteConfined(m: map<Path, Node>, d: Path, c: string)
    requires Closed(m) && ((d in m && m[d].File?) || (d !in m && IsDirAt(m, Parent(d)) && Fits(d)))
    ensures var m' := m[d := File(c)];
      Closed(m') && Keeps(m, m') && Confined(m, m', d)
  {
    ClosedWithFile(m, d, c);
  }

  /** `copyFile` keeps a tree well formed, removes nothing, turns no file into
      a directory or back, and changes only `dst` and the directories above
      it that it creates. */
  lemma CopyFileKeeps(m: map<Path, Node>, src: Path, dst: Path)
    requires Closed(m)
    ensures var m' := CopyFileResult(m, src, dst).0;
      Closed(m') && Keeps(m, m') && Confined(m, m', dst)
  {
    var (m1, e1) := MakeDirs(m, Parent(dst));
    MakeDirsConfined(m, Parent(dst), dst);
    if e1.None? && src in m1 {
      MakeDirsKeeps(m, Parent(dst));
      var (m2, e2) := Created(m1, dst);
      if e2.None? {
        WriteConfined(m1, dst, "");
        KeepsConfinedTrans(m, m1, m2, dst);
        if m2[src].File? {
          WriteConfined(m2, dst, m2[src].content);
          KeepsConfinedTrans(m, m2, CopyFileResult(m, src, dst).0, dst);
        }
      }
    }
  }

  lemma KeepsTrans(m1: map<Path, Node>, m2: map<Path, Node>, m3: map<Path, Node>)
    requires Keeps(m1, m2) && Keeps(m2, m3)
    ensures Keeps(m1, m3)
  {
  }

  lemma ConfinedToConfined(m: map<Path, Node>, m': map<Path, Node>, d: Path, names: set<Name>)
    requires ConfinedTo(m, m', d, names)
    ensures Confined(m, m', d)
  {
  }

  lemma ConfinedToTrans(m1: map<Path, Node>, m2: map<Path, Node>, m3: map<Path, Node>, d: Path, a: set<Name>, b: set<Name>)
    requires ConfinedTo(m1, m2, d, a) && ConfinedTo(m2, m3, d, b)
    ensures ConfinedTo(m1, m3, d, a + b)
  {
  }

  /** What is confined to `dst + [n]` in a tree where `dst` is a directory is
      confined to the entry `n` of `dst`: the directories above it exist. */
  lemma ConfinedBelow(m: map<Path, Node>, m': map<Path, Node>, dst: Path, n: Name)
    requires Closed(m) && IsDirAt(m, dst) && Confined(m, m', dst + [n])
    ensures ConfinedTo(m, m', dst, {n})
  {
    NewBelow(m, m', dst, n);
    forall k | k in m && !Below(dst, {n}, k)
      ensures k in m' && m'[k] == m[k]
    {
      if IsPrefix(dst + [n], k) {
        PrefixOfSnoc(dst, n, k);
      }
    }
  }

  lemma NewBelow(m: map<Path, Node>, m': map<Path, Node>, dst: Path, n: Name)
    requires Closed(m) && IsDirAt(m, dst)
    requires forall k :: k in m' && k !in m ==> IsPrefix(dst + [n], k) || IsPrefix(k, dst + [n])
    ensures forall k :: k in m' && k !in m ==> Below(dst, {n}, k)
  {
    forall k | k in m' && k !in m
      ensures Below(dst, {n}, k)
    {
      if IsPrefix(dst + [n], k) {
        PrefixOfSnoc(dst, n, k);
      } else {
        PrefixOfSnocShort(dst, n, k);
        if |k| < |dst| {
          AncestorIsDir(m, dst, |k|);
        }
      }
    }
  }

  lemma PrefixOfSnoc<T>(d: seq<T>, n: T, k: seq<T>)
    requires |d| + 1 <= |k| && k[..|d| + 1] == d + [n]
    ensures |d| < |k| && k[..|d|] == d && k[|d|] == n
  {
    assert k[..|d|] == k[..|d| + 1][..|d|];
  }

  lemma PrefixOfSnocShort<T>(d: seq<T>, n: T, k: seq<T>)
    requires |k| <= |d| + 1 && (d + [n])[..|k|] == k && k != d + [n]
    ensures |k| <= |d| && k == d[..|k|]
  {
    assert (d + [n])[..|d| + 1] == d + [n];
  }

  lemma ConfinedToWiden(m: map<Path, Node>, m': map<Path, Node>, d: Path, a: set<Name>, b: set<Name>)
    requires ConfinedTo(m, m', d, a) && a <= b
    ensures ConfinedTo(m, m', d, b)
  {
  }

  lemma NamesOfCons(es: seq<DirEntry>)
    requires es != []
    ensures NamesOf(es) == {es[0].name} + NamesOf(es[1..])
  {
    assert es == [es[0]] + es[1..];
  }

  /** One turn of the loop changes only the entry it copies. */
  lemma {:induction false} EntryCopiedKeeps(m: map<Path, Node>, src: Path, dst: Path, e: DirEntry)
    requires Closed(m) && Fits(dst) && IsDirAt(m, dst)
    ensures var m' := EntryCopied(m, src, dst, e).0;
      Closed(m') && Keeps(m, m') && ConfinedTo(m, m', dst, {e.name})
    decreases Room(dst), 0, 0, 0
  {
    RoomShrinks(dst, e.name);
    if e.isDir {
      CopyDirKeeps(m, src + [e.name], dst + [e.name]);
    } else {
      CopyFileKeeps(m, src + [e.name], dst + [e.name]);
    }
    ConfinedBelow(m, EntryCopied(m, src, dst, e).0, dst, e.name);
  }

  /** The loop changes only the entries it copies. */
  lemma {:induction false} CopyEntriesKeeps(m: map<Path, Node>, src: Path, dst: Path, es: seq<DirEntry>)
    requires Closed(m) && Fits(dst) && IsDirAt(m, dst)
    ensures var m' := CopyEntries(m, src, dst, es).0;
      Closed(m') && Keeps(m, m') && ConfinedTo(m, m', dst, NamesOf(es))
    decreases Room(dst), 0, |es|, 1
  {
    if es != [] {
      var (m1, e1) := EntryCopied(m, src, dst, es[0]);
      EntryCopiedKeeps(m, src, dst, es[0]);
      NamesOfCons(es);
      CopyEntriesStep(m, src, dst, es);
      if e1.None? {
        CopyEntriesKeeps(m1, src, dst, es[1..]);
        var m' := CopyEntries(m1, src, dst, es[1..]).0;
        KeepsTrans(m, m1, m');
        ConfinedToTrans(m, m1, m', dst, {es[0].name}, NamesOf(es[1..]));
      } else {
        ConfinedToWiden(m, m1, dst, {es[0].name}, NamesOf(es));
      }
    }
  }

  /** `copyDirectory` keeps a tree well formed, removes nothing, turns no
      file into a directory or back, and changes only `dst`, what lies under
      it and the directories above it that it creates. */
  lemma {:induction false} CopyDirKeeps(m: map<Path, Node>, src: Path, dst: Path)
    requires Closed(m)
    ensures var m' := CopyDir(m, src, dst).0;
      Closed(m') && Keeps(m, m') && Confined(m, m', dst)
    decreases Room(dst), 1, 0, 0
  {
    var (m1, e1) := MakeDirs(m, dst);
    MakeDirsConfined(m, dst, dst);
    if e1.None? && IsDirAt(m1, src) {
      MakeDirsKeeps(m, dst);
      var es := Listing(m1, src);
      CopyEntriesKeeps(m1, src, dst, es);
      var m' := CopyEntries(m1, src, dst, es).0;
      ConfinedToConfined(m1, m', dst, NamesOf(es));
      KeepsConfinedTrans(m, m1, m', dst);
    }
  }

  // ---------------------------------------------------------------------
  // What a copy achieves

  /** Neither path lies at or under the other. */
  predicate Disjoint(a: Path, b: Path) {
    !IsPrefix(a, b) && !IsPrefix(b, a)
  }

  lemma DisjointChild<T>(a: seq<T>, b: seq<T>, n: T)
    requires !(|a| <= |b| && b[..|a|] == a) && !(|b| <= |a| && a[..|b|] == b)
    ensures !(|a| + 1 <= |b| + 1 && (b + [n])[..|a| + 1] == a + [n])
    ensures !(|b| + 1 <= |a| + 1 && (a + [n])[..|b| + 1] == b + [n])
  {
    SnocPrefix(a, b, n);
    SnocPrefix(b, a, n);
  }

  lemma SnocPrefix<T>(a: seq<T>, b: seq<T>, n: T)
    ensures |a| <= |b| && (b + [n])[..|a| + 1] == a + [n] ==> b[..|a|] == a
  {
    if |a| <= |b| && (b + [n])[..|a| + 1] == a + [n] {
      assert (b + [n])[..|a| + 1][..|a|] == b[..|a|];
    }
  }

  /** Two paths that both lie above `k` lie one above the other. */
  lemma PrefixesComparable<T>(a: seq<T>, b: seq<T>, k: seq<T>)
    requires |a| <= |k| && k[..|a|] == a && |b| <= |k| && k[..|b|] == b
    ensures (|a| <= |b| && b[..|a|] == a) || (|b| <= |a| && a[..|b|] == b)
  {
    if |a| <= |b| {
      assert b[..|a|] == k[..|b|][..|a|];
    } else {
      assert a[..|b|] == k[..|a|][..|b|];
    }
  }

  lemma PrefixTransitive<T>(a: seq<T>, b: seq<T>, c: seq<T>)
    requires |a| <= |b| && b[..|a|] == a && |b| <= |c| && c[..|b|] == b
    ensures |a| <= |c| && c[..|a|] == a
  {
    assert c[..|a|] == c[..|b|][..|a|];
  }

  /** The entries at and under `p` are the same in both trees. */
  ghost predicate SameUnder(m: map<Path, Node>, m': map<Path, Node>, p: Path) {
    forall k :: IsPrefix(p, k) ==> (k in m <==> k in m') && (k in m ==> m'[k] == m[k])
  }

  /** A change confined to `dst` leaves a source disjoint from it alone. */
  lemma ConfinedKeepsSource(m: map<Path, Node>, m': map<Path, Node>, src: Path, dst: Path)
    requires Confined(m, m', dst) && Disjoint(src, dst)
    ensures SameUnder(m, m', src)
  {
    forall k | IsPrefix(src, k)
      ensures (k in m <==> k in m') && (k in m ==> m'[k] == m[k])
    {
      if IsPrefix(dst, k) {
        PrefixesComparable(src, dst, k);
      }
      if IsPrefix(k, dst) {
        PrefixTransitive(src, k, dst);
      }
    }
  }

  /** Every entry at or under `src` in `m` has a copy at the same place under
      `dst` in `m'`. */
  ghost predicate Mirrors(m: map<Path, Node>, m': map<Path, Node>, src: Path, dst: Path) {
    forall k :: k in m && IsPrefix(src, k) ==> dst + k[|src|..] in m' && m'[dst + k[|src|..]] == m[k]
  }

  /** The entry at `rel` under `src` is copied to `rel` under `dst`. */
  lemma MirroredAt(m: map<Path, Node>, m': map<Path, Node>, src: Path, dst: Path, rel: Path)
    requires Mirrors(m, m', src, dst) && src + rel in m
    ensures dst + rel in m' && m'[dst + rel] == m[src + rel]
  {
    var k := src + rel;
    assert IsPrefix(src, k) && k[|src|..] == rel;
  }

  /** The same, for the entries of `src` named in `names` and what lies under
      them. */
  ghost predicate MirrorsBelow(m: map<Path, Node>, m': map<Path, Node>, src: Path, dst: Path, names: set<Name>) {
    forall k :: k in m && Below(src, names, k) ==> dst + k[|src|..] in m' && m'[dst + k[|src|..]] == m[k]
  }

  /** `es` lists entries of `src` in `m` as they are, each name once. */
  ghost predicate ListsEntries(m: map<Path, Node>, src: Path, es: seq<DirEntry>) {
    && (forall i :: 0 <= i < |es| ==> src + [es[i].name] in m && es[i].isDir == (m[src + [es[i].name]] == Dir))
    && (forall i, j :: 0 <= i < j < |es| ==> es[i].name != es[j].name)
  }

  /** `os.ReadDir` lists the entries of a directory as they are. */
  lemma ListingLists(m: map<Path, Node>, src: Path)
    ensures ListsEntries(m, src, Listing(m, src))
    ensures forall n :: src + [n] in m ==> n in NamesOf(Listing(m, src))
  {
    var es := Listing(m, src);
    ListingSpec(m, src);
    forall i, j | 0 <= i < j < |es|
      ensures es[i].name != es[j].name
    {
      LessIrreflexive(es[i].name);
    }
    forall n | src + [n] in m
      ensures n in NamesOf(es)
    {
      var i :| 0 <= i < |es| && es[i].name == n;
      assert es[i] in es;
    }
  }

  /** `copyFile` succeeds exactly when the source is a file, nothing blocks
      the directory of `dst`, `dst` fits and is not a directory; the copy
      then holds the source's content, except that a file copied onto itself
      is left empty (it is truncated before it is read). */
  lemma CopyFileSpec(m: map<Path, Node>, src: Path, dst: Path)
    requires Closed(m)
    ensures var (m', e) := CopyFileResult(m, src, dst);
      && (e.None? <==> src in m && m[src].File? && FileOn(m, Parent(dst)).None? && Fits(dst) && !IsDirAt(m, dst))
      && (e.None? ==> dst in m' && m'[dst] == if src == dst then File("") else m[src])
  {
    var (m1, e1) := MakeDirs(m, Parent(dst));
    MakeParentFacts(m, dst);
    if e1.None? && src in m1 {
      CreatedAfterMakeDirs(m, dst);
      var (m2, e2) := Created(m1, dst);
      if e2.None? {
        CopiedFromMadeTree(m, m1, src, dst);
      }
    }
  }

  /** After the directory of `dst` is made and `dst` opened, the copy reads a
      file exactly when `src` was one; it reads an empty file when `src` is
      `dst` itself. */
  lemma CopiedFromMadeTree(m: map<Path, Node>, m1: map<Path, Node>, src: Path, dst: Path)
    requires forall k :: k in m ==> k in m1 && m1[k] == m[k]
    requires forall k :: k in m1 && k !in m ==> m1[k] == Dir && k != dst
    requires src in m1 && !IsDirAt(m, dst)
    ensures var m2 := m1[dst := File("")];
      && (m2[src].File? <==> src in m && m[src].File?)
      && (src in m ==> m2[src] == if src == dst then File("") else m[src])
  {
  }

  /** Once the directory of `dst` is made, opening `dst` for writing fails
      exactly when `dst` is a directory of the original tree or too long. */
  lemma CreatedAfterMakeDirs(m: map<Path, Node>, dst: Path)
    requires Closed(m) && MakeDirs(m, Parent(dst)).1.None?
    ensures Created(MakeDirs(m, Parent(dst)).0, dst).1.None? <==> !IsDirAt(m, dst) && Fits(dst)
  {
    MakeParentFacts(m, dst);
  }

  /** The first step of `copyFile`: making the directory of `dst` adds
      directories above `dst` only. */
  lemma MakeParentFacts(m: map<Path, Node>, dst: Path)
    requires Closed(m)
    ensures var (m1, e1) := MakeDirs(m, Parent(dst));
      && Closed(m1)
      && (e1.None? <==> FileOn(m, Parent(dst)).None? && Fits(Parent(dst)))
      && (e1.None? ==> IsDirAt(m1, Parent(dst)))
      && (forall k :: k in m ==> k in m1 && m1[k] == m[k])
      && (forall k :: k in m1 && k !in m ==> m1[k] == Dir && k != dst)
      && (Fits(dst) ==> Fits(Parent(dst)))
  {
    MakeDirsKeeps(m, Parent(dst));
    if dst != [] {
      PathTextMonotone(dst, |dst| - 1);
      assert dst[..|dst| - 1] == Parent(dst);
    }
  }

  /** A file has nothing under it. */
  lemma NothingUnderFile(m: map<Path, Node>, f: Path, k: Path)
    requires Closed(m) && f in m && m[f].File? && k in m && IsPrefix(f, k)
    ensures k == f
  {
    if k != f {
      AncestorIsDir(m, k, |f|);
    }
  }

  /** A copied file mirrors the one entry it is. */
  lemma FileMirrors(m: map<Path, Node>, m': map<Path, Node>, s: Path, d: Path)
    requires Closed(m) && s in m && m[s].File? && d in m' && m'[d] == m[s]
    ensures Mirrors(m, m', s, d)
  {
    forall k | k in m && IsPrefix(s, k)
      ensures d + k[|s|..] in m' && m'[d + k[|s|..]] == m[k]
    {
      NothingUnderFile(m, s, k);
      assert k[|s|..] == [] && d + [] == d;
    }
  }

  lemma BelowMirrors(m: map<Path, Node>, m': map<Path, Node>, src: Path, dst: Path, n: Name)
    requires Mirrors(m, m', src + [n], dst + [n])
    ensures MirrorsBelow(m, m', src, dst, {n})
  {
    forall k | k in m && Below(src, {n}, k)
      ensures dst + k[|src|..] in m' && m'[dst + k[|src|..]] == m[k]
    {
      assert k[..|src| + 1] == src + [n];
      assert dst + k[|src|..] == (dst + [n]) + k[|src| + 1..];
    }
  }

  /** On success, one turn of the loop copies its entry. */
  lemma {:induction false} EntryCopiedMirrors(m: map<Path, Node>, src: Path, dst: Path, e: DirEntry)
    requires Closed(m) && Fits(dst) && Disjoint(src, dst)
    requires src + [e.name] in m && e.isDir == (m[src + [e.name]] == Dir)
    ensures var (m', err) := EntryCopied(m, src, dst, e);
      err.None? ==> MirrorsBelow(m, m', src, dst, {e.name})
    decreases Room(dst), 0, 0, 0
  {
    var n := e.name;
    var (m', err) := EntryCopied(m, src, dst, e);
    RoomShrinks(dst, n);
    DisjointChild(src, dst, n);
    if err.None? {
      if e.isDir {
        CopyDirMirrors(m, src + [n], dst + [n]);
        BelowMirrors(m, m', src, dst, n);
      } else {
        FileEntryMirrors(m, src, dst, n);
      }
    }
  }

  /** On success, a turn of the loop on a file copies that file. */
  lemma FileEntryMirrors(m: map<Path, Node>, src: Path, dst: Path, n: Name)
    requires Closed(m) && src + [n] in m && m[src + [n]] != Dir && src != dst
    ensures var (m', err) := CopyFileResult(m, src + [n], dst + [n]);
      err.None? ==> MirrorsBelow(m, m', src, dst, {n})
  {
    var (m', err) := CopyFileResult(m, src + [n], dst + [n]);
    if err.None? {
      assert src + [n] != dst + [n] by {
        assert (src + [n])[..|src|] == src && (dst + [n])[..|dst|] == dst;
      }
      CopyFileSpec(m, src + [n], dst + [n]);
      FileMirrors(m, m', src + [n], dst + [n]);
      BelowMirrors(m, m', src, dst, n);
    }
  }

  /** What one turn copied survives the later turns, which touch other
      entries only, and what they copy is copied from the untouched source. */
  lemma MirrorsCombine(m: map<Path, Node>, m1: map<Path, Node>, m': map<Path, Node>, src: Path, dst: Path, n: Name, rest: set<Name>)
    requires MirrorsBelow(m, m1, src, dst, {n}) && SameUnder(m, m1, src)
    requires MirrorsBelow(m1, m', src, dst, rest) && ConfinedTo(m1, m', dst, rest) && n !in rest
    ensures MirrorsBelow(m, m', src, dst, {n} + rest)
  {
    forall k | k in m && Below(src, {n} + rest, k)
      ensures dst + k[|src|..] in m' && m'[dst + k[|src|..]] == m[k]
    {
      var t := dst + k[|src|..];
      assert t[..|dst|] == dst && t[|dst|] == k[|src|];
      if k[|src|] == n {
        assert !Below(dst, rest, t);
      } else {
        assert IsPrefix(src, k);
      }
    }
  }

  lemma ListsEntriesRest(m: map<Path, Node>, m1: map<Path, Node>, src: Path, es: seq<DirEntry>)
    requires ListsEntries(m, src, es) && SameUnder(m, m1, src) && es != []
    ensures ListsEntries(m1, src, es[1..])
    ensures es[0].name !in NamesOf(es[1..])
  {
    forall i | 0 <= i < |es| - 1
      ensures src + [es[1..][i].name] in m1 && es[1..][i].isDir == (m1[src + [es[1..][i].name]] == Dir)
    {
      assert IsPrefix(src, src + [es[i + 1].name]);
    }
  }

  /** A turn of the loop leaves the source and the rest of the listing as
      they were, and the destination a directory. */
  lemma EntryKeepsSource(m: map<Path, Node>, src: Path, dst: Path, es: seq<DirEntry>)
    requires Closed(m) && Fits(dst) && IsDirAt(m, dst) && Disjoint(src, dst) && ListsEntries(m, src, es) && es != []
    ensures var m1 := EntryCopied(m, src, dst, es[0]).0;
      && Closed(m1) && IsDirAt(m1, dst) && SameUnder(m, m1, src)
      && ListsEntries(m1, src, es[1..]) && es[0].name !in NamesOf(es[1..])
  {
    var m1 := EntryCopied(m, src, dst, es[0]).0;
    EntryCopiedKeeps(m, src, dst, es[0]);
    ConfinedToConfined(m, m1, dst, {es[0].name});
    ConfinedKeepsSource(m, m1, src, dst);
    ListsEntriesRest(m, m1, src, es);
  }

  /** On success, the loop copies every entry it lists. */
  lemma {:induction false} CopyEntriesMirrors(m: map<Path, Node>, src: Path, dst: Path, es: seq<DirEntry>)
    requires Closed(m) && Fits(dst) && IsDirAt(m, dst) && Disjoint(src, dst) && ListsEntries(m, src, es)
    ensures var (m', err) := CopyEntries(m, src, dst, es);
      err.None? ==> MirrorsBelow(m, m', src, dst, NamesOf(es))
    decreases Room(dst), 0, |es|, 1
  {
    if es != [] {
      var n := es[0].name;
      var (m1, e1) := EntryCopied(m, src, dst, es[0]);
      CopyEntriesStep(m, src, dst, es);
      NamesOfCons(es);
      if e1.None? {
        EntryCopiedMirrors(m, src, dst, es[0]);
        EntryKeepsSource(m, src, dst, es);
        CopyEntriesMirrors(m1, src, dst, es[1..]);
        CopyEntriesKeeps(m1, src, dst, es[1..]);
        var (m', e') := CopyEntries(m1, src, dst, es[1..]);
        if e'.None? {
          MirrorsCombine(m, m1, m', src, dst, n, NamesOf(es[1..]));
        }
      }
    }
  }

  /** Mirroring every entry of `src` mirrors `src` as a whole. */
  lemma MirrorsFromBelow(m: map<Path, Node>, m': map<Path, Node>, src: Path, dst: Path, names: set<Name>)
    requires Closed(m) && IsDirAt(m, src) && IsDirAt(m', dst)
    requires forall n :: src + [n] in m ==> n in names
    requires MirrorsBelow(m, m', src, dst, names)
    ensures Mirrors(m, m', src, dst)
  {
    forall k | k in m && IsPrefix(src, k)
      ensures dst + k[|src|..] in m' && m'[dst + k[|src|..]] == m[k]
    {
      if k == src {
        assert k[|src|..] == [] && dst + [] == dst;
      } else {
        UnderNamedEntry(m, src, names, k);
      }
    }
  }

  /** An entry strictly under `src` lies under one of its entries, and so
      under one named in `names` when these name them all. */
  lemma UnderNamedEntry(m: map<Path, Node>, src: Path, names: set<Name>, k: Path)
    requires Closed(m) && k in m && IsPrefix(src, k) && k != src
    requires forall n :: src + [n] in m ==> n in names
    ensures Below(src, names, k)
  {
    EntryOnTheWay(m, src, k);
  }

  /** The entry of `src` on the way down to `k`. */
  lemma EntryOnTheWay(m: map<Path, Node>, src: Path, k: Path)
    requires Closed(m) && k in m && IsPrefix(src, k) && k != src
    ensures |src| < |k| && src + [k[|src|]] in m
  {
    ChildPrefix(src, k);
    if |src| + 1 < |k| {
      AncestorIsDir(m, k, |src| + 1);
    }
  }

  lemma ChildPrefix(src: Path, k: Path)
    requires IsPrefix(src, k) && k != src
    ensures |src| < |k| && k[..|src| + 1] == src + [k[|src|]]
    ensures |src| + 1 == |k| ==> k == src + [k[|src|]]
  {
    assert k[..|k|] == k;
    assert k[..|src| + 1] == k[..|src|] + [k[|src|]];
  }

  lemma MirrorsSame(m: map<Path, Node>, m1: map<Path, Node>, m': map<Path, Node>, src: Path, dst: Path)
    requires SameUnder(m, m1, src) && Mirrors(m1, m', src, dst)
    ensures Mirrors(m, m', src, dst)
  {
  }

  /** On success, `copyDirectory` between disjoint paths leaves a copy of
      every file and directory at or under `src` at the same place under
      `dst`. */
  lemma {:induction false} CopyDirMirrors(m: map<Path, Node>, src: Path, dst: Path)
    requires Closed(m) && Disjoint(src, dst)
    ensures var (m', e) := CopyDir(m, src, dst);
      e.None? ==> Mirrors(m, m', src, dst)
    decreases Room(dst), 1, 0, 0
  {
    var (m1, e1) := MakeDirs(m, dst);
    MakeDirsConfined(m, dst, dst);
    if e1.None? && IsDirAt(m1, src) {
      MakeDirsKeeps(m, dst);
      ConfinedKeepsSource(m, m1, src, dst);
      var es := Listing(m1, src);
      ListingLists(m1, src);
      CopyEntriesMirrors(m1, src, dst, es);
      CopyEntriesKeeps(m1, src, dst, es);
      var (m', e) := CopyEntries(m1, src, dst, es);
      if e.None? {
        MirrorsFromBelow(m1, m', src, dst, NamesOf(es));
        MirrorsSame(m, m1, m', src, dst);
      }
    }
  }

  // ---------------------------------------------------------------------
  // When a copy succeeds

  /** Nothing stands in the way of the copies of the entries at and under
      `src`: each copy's path fits, and an entry already at that path is a
      directory exactly when its source is. */
  ghost predicate Unobstructed(m: map<Path, Node>, src: Path, dst: Path) {
    forall k :: k in m && IsPrefix(src, k) ==>
      Fits(dst + k[|src|..]) && (dst + k[|src|..] in m ==> (m[dst + k[|src|..]] == Dir <==> m[k] == Dir))
  }

  /** The same, for the entries of `src` named in `names` and what lies under
      them. */
  ghost predicate UnobstructedBelow(m: map<Path, Node>, src: Path, dst: Path, names: set<Name>) {
    forall k :: k in m && Below(src, names, k) ==>
      Fits(dst + k[|src|..]) && (dst + k[|src|..] in m ==> (m[dst + k[|src|..]] == Dir <==> m[k] == Dir))
  }

  /** When `copyDirectory(src, dst)` can succeed: `src` is a directory, no
      file sits at or above `dst`, and nothing is in the way below it. */
  ghost predicate CanCopyDir(m: map<Path, Node>, src: Path, dst: Path) {
    IsDirAt(m, src) && FileOn(m, dst).None? && Unobstructed(m, src, dst)
  }

  /** In particular the copy of `src` itself fits and is not in the way. */
  lemma UnobstructedTop(m: map<Path, Node>, src: Path, dst: Path)
    requires Unobstructed(m, src, dst) && src in m
    ensures Fits(dst) && (dst in m ==> (m[dst] == Dir <==> m[src] == Dir))
  {
    assert IsPrefix(src, src) && src[|src|..] == [] && dst + [] == dst;
  }

  /** No file sits at or above a directory. */
  lemma DirHasNoFileOn(m: map<Path, Node>, p: Path)
    requires Closed(m) && IsDirAt(m, p)
    ensures FileOn(m, p).None?
  {
    forall j | 0 <= j <= |p|
      ensures p[..j] in m && m[p[..j]] == Dir
    {
      if j < |p| {
        AncestorIsDir(m, p, j);
      } else {
        assert p[..j] == p;
      }
    }
  }

  lemma FileOnChild(m: map<Path, Node>, p: Path, n: Name)
    requires FileOn(m, p).None? && !(p + [n] in m && m[p + [n]].File?)
    ensures FileOn(m, p + [n]).None?
  {
    assert Parent(p + [n]) == p;
  }

  lemma UnobstructedChild(m: map<Path, Node>, src: Path, dst: Path, n: Name)
    requires UnobstructedBelow(m, src, dst, {n})
    ensures Unobstructed(m, src + [n], dst + [n])
  {
    forall k | k in m && IsPrefix(src + [n], k)
      ensures Below(src, {n}, k) && (dst + [n]) + k[|src + [n]|..] == dst + k[|src|..]
    {
      ChildSuffix(src, dst, n, k);
    }
  }

  /** A path under `src + [n]` lies below `src` through `n`, and moving it
      from `src + [n]` to `dst + [n]` is moving it from `src` to `dst`. */
  lemma ChildSuffix(src: Path, dst: Path, n: Name, k: Path)
    requires IsPrefix(src + [n], k)
    ensures Below(src, {n}, k) && (dst + [n]) + k[|src + [n]|..] == dst + k[|src|..]
  {
    assert k[..|src|] == k[..|src| + 1][..|src|];
    assert k[|src|..] == [n] + k[|src| + 1..];
  }

  /** After one turn, the rest of the entries are as unobstructed as they
      were: the turn touched only its own entry. */
  lemma UnobstructedRest(m: map<Path, Node>, m1: map<Path, Node>, src: Path, dst: Path, n: Name, rest: set<Name>)
    requires UnobstructedBelow(m, src, dst, {n} + rest) && SameUnder(m, m1, src)
    requires ConfinedTo(m, m1, dst, {n}) && n !in rest
    ensures UnobstructedBelow(m1, src, dst, rest)
  {
    forall k | k in m1 && Below(src, rest, k)
      ensures Fits(dst + k[|src|..]) && (dst + k[|src|..] in m1 ==> (m1[dst + k[|src|..]] == Dir <==> m1[k] == Dir))
    {
      var t := dst + k[|src|..];
      assert IsPrefix(src, k);
      assert t[..|dst|] == dst && t[|dst|] == k[|src|];
      assert !Below(dst, {n}, t);
    }
  }

  /** Making `dst` adds only directories at or above it, which are not in
      the way of anything below it. */
  lemma UnobstructedAfterMakeDirs(m: map<Path, Node>, m1: map<Path, Node>, src: Path, dst: Path, names: set<Name>)
    requires Unobstructed(m, src, dst) && SameUnder(m, m1, src)
    requires forall k :: k in m ==> k in m1 && m1[k] == m[k]
    requires forall k :: k in m1 && k !in m ==> IsPrefix(k, dst)
    ensures UnobstructedBelow(m1, src, dst, names)
  {
    forall k | k in m1 && Below(src, names, k)
      ensures Fits(dst + k[|src|..]) && (dst + k[|src|..] in m1 ==> (m1[dst + k[|src|..]] == Dir <==> m1[k] == Dir))
    {
      assert IsPrefix(src, k);
    }
  }

  /** With nothing in the way, one turn of the loop succeeds. */
  lemma {:induction false} EntryCopiedSucceeds(m: map<Path, Node>, src: Path, dst: Path, e: DirEntry)
    requires Closed(m) && Fits(dst) && IsDirAt(m, dst) && Disjoint(src, dst)
    requires src + [e.name] in m && e.isDir == (m[src + [e.name]] == Dir)
    requires UnobstructedBelow(m, src, dst, {e.name})
    ensures EntryCopied(m, src, dst, e).1.None?
    decreases Room(dst), 0, 0, 0
  {
    var n := e.name;
    RoomShrinks(dst, n);
    UnobstructedChild(m, src, dst, n);
    if e.isDir {
      DisjointChild(src, dst, n);
      UnobstructedTop(m, src + [n], dst + [n]);
      DirHasNoFileOn(m, dst);
      FileOnChild(m, dst, n);
      CopyDirSucceeds(m, src + [n], dst + [n]);
    } else {
      FileEntrySucceeds(m, src, dst, n);
    }
  }

  /** A file of `src` with nothing in the way is copied into `dst`. */
  lemma FileEntrySucceeds(m: map<Path, Node>, src: Path, dst: Path, n: Name)
    requires Closed(m) && IsDirAt(m, dst)
    requires src + [n] in m && m[src + [n]].File?
    requires Unobstructed(m, src + [n], dst + [n])
    ensures CopyFileResult(m, src + [n], dst + [n]).1.None?
  {
    UnobstructedTop(m, src + [n], dst + [n]);
    DirHasNoFileOn(m, dst);
    assert Parent(dst + [n]) == dst;
    CopyFileSpec(m, src + [n], dst + [n]);
  }

  /** With nothing in the way, the loop runs to the end. */
  lemma {:induction false} CopyEntriesSucceeds(m: map<Path, Node>, src: Path, dst: Path, es: seq<DirEntry>)
    requires Closed(m) && Fits(dst) && IsDirAt(m, dst) && Disjoint(src, dst) && ListsEntries(m, src, es)
    requires UnobstructedBelow(m, src, dst, NamesOf(es))
    ensures CopyEntries(m, src, dst, es).1.None?
    decreases Room(dst), 0, |es|, 1
  {
    if es != [] {
      var n := es[0].name;
      var m1 := EntryCopied(m, src, dst, es[0]).0;
      CopyEntriesStep(m, src, dst, es);
      NamesOfCons(es);
      EntryCopiedSucceeds(m, src, dst, es[0]);
      EntryKeepsSource(m, src, dst, es);
      EntryCopiedKeeps(m, src, dst, es[0]);
      UnobstructedRest(m, m1, src, dst, n, NamesOf(es[1..]));
      CopyEntriesSucceeds(m1, src, dst, es[1..]);
    }
  }

  /** With nothing in the way, `copyDirectory` between disjoint paths
      succeeds. */
  lemma {:induction false} CopyDirSucceeds(m: map<Path, Node>, src: Path, dst: Path)
    requires Closed(m) && Disjoint(src, dst) && CanCopyDir(m, src, dst)
    ensures CopyDir(m, src, dst).1.None?
    decreases Room(dst), 1, 0, 0
  {
    UnobstructedTop(m, src, dst);
    var m1 := MakeDirs(m, dst).0;
    MakeDirsKeeps(m, dst);
    MakeDirsConfined(m, dst, dst);
    ConfinedKeepsSource(m, m1, src, dst);
    var es := Listing(m1, src);
    ListingLists(m1, src);
    UnobstructedAfterMakeDirs(m, m1, src, dst, NamesOf(es));
    CopyEntriesSucceeds(m1, src, dst, es);
  }

  /** A copy that succeeded had nothing in its way. */
  lemma CopyDirSucceeded(m: map<Path, Node>, src: Path, dst: Path)
    requires Closed(m) && Disjoint(src, dst) && CopyDir(m, src, dst).1.None?
    ensures CanCopyDir(m, src, dst)
  {
    var m1 := MakeDirs(m, dst).0;
    var m' := CopyDir(m, src, dst).0;
    MakeDirsConfined(m, dst, dst);
    ConfinedKeepsSource(m, m1, src, dst);
    CopyDirMirrors(m, src, dst);
    CopyDirKeeps(m, src, dst);
    assert IsDirAt(m1, src);
  }

  /** `copyDirectory` between disjoint paths succeeds exactly when nothing
      is in its way, and then leaves a copy of everything at and under `src`
      at the same place under `dst`, changes nothing outside `dst` and the
      directories above it, and turns no file into a directory or back. */
  lemma CopyDirSpec(m: map<Path, Node>, src: Path, dst: Path)
    requires Closed(m) && Disjoint(src, dst)
    ensures var (m', e) := CopyDir(m, src, dst);
      && (e.None? <==> CanCopyDir(m, src, dst))
      && (e.None? ==> Mirrors(m, m', src, dst))
      && Closed(m') && Keeps(m, m') && Confined(m, m', dst)
  {
    CopyDirKeeps(m, src, dst);
    CopyDirMirrors(m, src, dst);
    if CopyDir(m, src, dst).1.None? {
      CopyDirSucceeded(m, src, dst);
    } else if CanCopyDir(m, src, dst) {
      CopyDirSucceeds(m, src, dst);
    }
  }

  // ---------------------------------------------------------------------
  // copyPath

  /** `copyPath` fails with the `os.Stat` error, leaving the tree alone, when
      the source does not exist; a directory is copied as `CopyDirSpec` says
      (for a destination disjoint from it) and a file as `CopyFileSpec` says.
      Either way the tree stays well formed and every directory stays one. */
  lemma CopyPathSpec(m: map<Path, Node>, cwd: Path, sourcePath: string, destinationPath: string)
    requires Closed(m)
    ensures var (m', e) := CopyPathResult(m, cwd, sourcePath, destinationPath);
      var src := Resolve(cwd, sourcePath);
      var dst := Resolve(cwd, destinationPath);
      && Closed(m') && Keeps(m, m')
      && (sourcePath == "" || src !in m ==> e == StatError(m, cwd, sourcePath) && e.Some? && m' == m)
      && (sourcePath != "" && src in m && m[src] == Dir && Disjoint(src, dst) ==>
            && (e.None? <==> CanCopyDir(m, src, dst))
            && (e.None? ==> Mirrors(m, m', src, dst)))
      && (sourcePath != "" && src in m && m[src].File? ==>
            && (e.None? <==> FileOn(m, Parent(dst)).None? && Fits(dst) && !IsDirAt(m, dst))
            && (e.None? ==> dst in m' && m'[dst] == if src == dst then File("") else m[src]))
  {
    var src := Resolve(cwd, sourcePath);
    var dst := Resolve(cwd, destinationPath);
    if sourcePath != "" && src in m {
      if m[src] == Dir {
        CopyDirKeeps(m, src, dst);
        if Disjoint(src, dst) {
          CopyDirSpec(m, src, dst);
        }
      } else {
        CopyFileKeeps(m, src, dst);
        CopyFileSpec(m, src, dst);
      }
    }
  }

  // ---------------------------------------------------------------------
  // SetupDir

  const RootNotFound := "project root with go.mod file not found"

  /** The message of the panic that a failed copy raises. */
  function CopyPanic(e: PathError): string {
    "SetupDir: failed to copyPath: " + ErrorText(e)
  }

  /** The source text of a pair: every `@` stands for the project root. */
  function SourcePath(root: Path, source: string): string {
    ReplaceChar(source, '@', PathText(root))
  }

  /** The destination text of a pair: in the temporary directory, under the
      name given or, when none is, under the base name of the source. */
  function DestinationPath(tempDir: Path, sourcePath: string, destination: string): string {
    PathText(tempDir) + "/" + (if destination == "" then Base(sourcePath) else destination)
  }

  /** The copies `SetupDir` makes, pair by pair in the order the map is
      visited; the first error ends them. */
  ghost function CopyAll(m: map<Path, Node>, cwd: Path, root: Path, tempDir: Path, pairs: seq<(string, string)>): (map<Path, Node>, Option<PathError>)
    decreases |pairs|
  {
    if pairs == [] then (m, None)
    else
      var sourcePath := SourcePath(root, pairs[0].0);
      var (m1, e1) := CopyPathResult(m, cwd, sourcePath, DestinationPath(tempDir, sourcePath, pairs[0].1));
      if e1.Some? then (m1, e1) else CopyAll(m1, cwd, root, tempDir, pairs[1..])
  }

  /** With one pair, the copies are that pair's `copyPath`. */
  lemma CopyAllSingle(m: map<Path, Node>, cwd: Path, root: Path, tempDir: Path, source: string, destination: string)
    ensures var sourcePath := SourcePath(root, source);
      CopyAll(m, cwd, root, tempDir, [(source, destination)])
        == CopyPathResult(m, cwd, sourcePath, DestinationPath(tempDir, sourcePath, destination))
  {
    assert [(source, destination)][1..] == [];
  }

  /** The copies keep the tree well formed and every directory a directory,
      the temporary directory among them. */
  lemma {:induction false} CopyAllKeeps(m: map<Path, Node>, cwd: Path, root: Path, tempDir: Path, pairs: seq<(string, string)>)
    requires Closed(m)
    ensures var m' := CopyAll(m, cwd, root, tempDir, pairs).0;
      Closed(m') && Keeps(m, m')
    decreases |pairs|
  {
    if pairs != [] {
      var sourcePath := SourcePath(root, pairs[0].0);
      var destinationPath := DestinationPath(tempDir, sourcePath, pairs[0].1);
      var (m1, e1) := CopyPathResult(m, cwd, sourcePath, destinationPath);
      CopyPathSpec(m, cwd, sourcePath, destinationPath);
      if e1.None? {
        CopyAllKeeps(m1, cwd, root, tempDir, pairs[1..]);
        KeepsTrans(m, m1, CopyAll(m1, cwd, root, tempDir, pairs[1..]).0);
      }
    }
  }

  /** The resolved source of a pair. */
  function SourceOf(cwd: Path, root: Path, pair: (string, string)): Path {
    Resolve(cwd, SourcePath(root, pair.0))
  }

  /** The resolved destination of a pair. */
  function DestinationOf(cwd: Path, root: Path, tempDir: Path, pair: (string, string)): Path {
    Resolve(cwd, DestinationPath(tempDir, SourcePath(root, pair.0), pair.1))
  }

  /** No destination lies in, under or above a source, or another pair's
      destination. */
  predicate Separate(cwd: Path, root: Path, tempDir: Path, pairs: seq<(string, string)>) {
    forall i, j :: 0 <= i < |pairs| && 0 <= j < |pairs| ==>
      && Disjoint(SourceOf(cwd, root, pairs[i]), DestinationOf(cwd, root, tempDir, pairs[j]))
      && (i != j ==> Disjoint(DestinationOf(cwd, root, tempDir, pairs[i]), DestinationOf(cwd, root, tempDir, pairs[j])))
  }

  lemma SeparateTail(cwd: Path, root: Path, tempDir: Path, pairs: seq<(string, string)>)
    requires pairs != [] && Separate(cwd, root, tempDir, pairs)
    ensures Separate(cwd, root, tempDir, pairs[1..])
  {
    forall i, j | 0 <= i < |pairs| - 1 && 0 <= j < |pairs| - 1
      ensures && Disjoint(SourceOf(cwd, root, pairs[1..][i]), DestinationOf(cwd, root, tempDir, pairs[1..][j]))
              && (i != j ==> Disjoint(DestinationOf(cwd, root, tempDir, pairs[1..][i]), DestinationOf(cwd, root, tempDir, pairs[1..][j])))
    {
      assert pairs[1..][i] == pairs[i + 1] && pairs[1..][j] == pairs[j + 1];
    }
  }

  /** `copyPath` keeps the tree well formed and changes only its destination
      and what lies under or above it. */
  lemma CopyPathConfined(m: map<Path, Node>, cwd: Path, sourcePath: string, destinationPath: string)
    requires Closed(m)
    ensures var m' := CopyPathResult(m, cwd, sourcePath, destinationPath).0;
      Closed(m') && Confined(m, m', Resolve(cwd, destinationPath))
  {
    var src := Resolve(cwd, sourcePath);
    var dst := Resolve(cwd, destinationPath);
    if StatError(m, cwd, sourcePath).None? {
      if m[src] == Dir {
        CopyDirKeeps(m, src, dst);
      } else {
        CopyFileKeeps(m, src, dst);
      }
    }
  }

  /** A successful `copyPath` between disjoint paths copies everything at or
      under the source to the destination. */
  lemma CopyPathMirrors(m: map<Path, Node>, cwd: Path, sourcePath: string, destinationPath: string)
    requires Closed(m)
    requires Disjoint(Resolve(cwd, sourcePath), Resolve(cwd, destinationPath))
    ensures var (m', e) := CopyPathResult(m, cwd, sourcePath, destinationPath);
      e.None? ==> Resolve(cwd, sourcePath) in m && Mirrors(m, m', Resolve(cwd, sourcePath), Resolve(cwd, destinationPath))
  {
    var src := Resolve(cwd, sourcePath);
    var dst := Resolve(cwd, destinationPath);
    var (m', e) := CopyPathResult(m, cwd, sourcePath, destinationPath);
    CopyPathSpec(m, cwd, sourcePath, destinationPath);
    if e.None? && m[src].File? {
      assert src[..|src|] == src;
      FileMirrors(m, m', src, dst);
    }
  }

  lemma SameUnderTrans(m1: map<Path, Node>, m2: map<Path, Node>, m3: map<Path, Node>, p: Path)
    requires SameUnder(m1, m2, p) && SameUnder(m2, m3, p)
    ensures SameUnder(m1, m3, p)
  {
  }

  /** A copy survives later changes that leave its destination alone. */
  lemma MirrorsKept(m: map<Path, Node>, m1: map<Path, Node>, m': map<Path, Node>, src: Path, dst: Path)
    requires Mirrors(m, m1, src, dst) && SameUnder(m1, m', dst)
    ensures Mirrors(m, m', src, dst)
  {
    forall k | k in m && IsPrefix(src, k)
      ensures dst + k[|src|..] in m' && m'[dst + k[|src|..]] == m[k]
    {
      assert (dst + k[|src|..])[..|dst|] == dst;
    }
  }

  /** The copies leave alone everything at or under a path disjoint from
      every destination. */
  lemma {:induction false} CopyAllSameUnder(m: map<Path, Node>, cwd: Path, root: Path, tempDir: Path, pairs: seq<(string, string)>, d: Path)
    requires Closed(m)
    requires forall j :: 0 <= j < |pairs| ==> Disjoint(d, DestinationOf(cwd, root, tempDir, pairs[j]))
    ensures SameUnder(m, CopyAll(m, cwd, root, tempDir, pairs).0, d)
    decreases |pairs|
  {
    if pairs != [] {
      var sourcePath := SourcePath(root, pairs[0].0);
      var destinationPath := DestinationPath(tempDir, sourcePath, pairs[0].1);
      var (m1, e1) := CopyPathResult(m, cwd, sourcePath, destinationPath);
      CopyPathConfined(m, cwd, sourcePath, destinationPath);
      assert Disjoint(d, DestinationOf(cwd, root, tempDir, pairs[0]));
      ConfinedKeepsSource(m, m1, d, Resolve(cwd, destinationPath));
      if e1.None? {
        forall j | 0 <= j < |pairs| - 1
          ensures Disjoint(d, DestinationOf(cwd, root, tempDir, pairs[1..][j]))
        {
          assert pairs[1..][j] == pairs[j + 1];
        }
        CopyAllSameUnder(m1, cwd, root, tempDir, pairs[1..], d);
        SameUnderTrans(m, m1, CopyAll(m1, cwd, root, tempDir, pairs[1..]).0, d);
      }
    }
  }

  /** The pairs after the first keep their copies through a first copy
      confined to `dst`, a path disjoint from their sources. */
  lemma LaterPairsMirror(m: map<Path, Node>, m1: map<Path, Node>, m': map<Path, Node>, cwd: Path, root: Path, tempDir: Path, pairs: seq<(string, string)>, dst: Path)
    requires pairs != [] && Confined(m, m1, dst)
    requires forall i :: 0 <= i < |pairs| ==> Disjoint(SourceOf(cwd, root, pairs[i]), dst)
    requires forall i :: 0 <= i < |pairs[1..]| ==>
      && SourceOf(cwd, root, pairs[1..][i]) in m1
      && Mirrors(m1, m', SourceOf(cwd, root, pairs[1..][i]), DestinationOf(cwd, root, tempDir, pairs[1..][i]))
    ensures forall i :: 1 <= i < |pairs| ==>
      && SourceOf(cwd, root, pairs[i]) in m
      && Mirrors(m, m', SourceOf(cwd, root, pairs[i]), DestinationOf(cwd, root, tempDir, pairs[i]))
  {
    forall i | 1 <= i < |pairs|
      ensures SourceOf(cwd, root, pairs[i]) in m
      ensures Mirrors(m, m', SourceOf(cwd, root, pairs[i]), DestinationOf(cwd, root, tempDir, pairs[i]))
    {
      var s := SourceOf(cwd, root, pairs[i]);
      assert pairs[1..][i - 1] == pairs[i];
      ConfinedKeepsSource(m, m1, s, dst);
      assert s[..|s|] == s;
      MirrorsSame(m, m1, m', s, DestinationOf(cwd, root, tempDir, pairs[i]));
    }
  }

  /** The first destination is disjoint from every later one. */
  lemma FirstApart(cwd: Path, root: Path, tempDir: Path, pairs: seq<(string, string)>)
    requires pairs != [] && Separate(cwd, root, tempDir, pairs)
    ensures Disjoint(SourceOf(cwd, root, pairs[0]), DestinationOf(cwd, root, tempDir, pairs[0]))
    ensures forall i :: 0 <= i < |pairs| ==> Disjoint(SourceOf(cwd, root, pairs[i]), DestinationOf(cwd, root, tempDir, pairs[0]))
    ensures forall j :: 0 <= j < |pairs[1..]| ==>
      Disjoint(DestinationOf(cwd, root, tempDir, pairs[0]), DestinationOf(cwd, root, tempDir, pairs[1..][j]))
  {
    forall j | 0 <= j < |pairs[1..]|
      ensures Disjoint(DestinationOf(cwd, root, tempDir, pairs[0]), DestinationOf(cwd, root, tempDir, pairs[1..][j]))
    {
      assert pairs[1..][j] == pairs[j + 1];
    }
  }

  /** When no destination overlaps a source or another destination and no
      copy fails, every pair's source, as it was before the copies, is
      copied entire to that pair's destination. */
  lemma {:induction false} CopyAllMirrors(m: map<Path, Node>, cwd: Path, root: Path, tempDir: Path, pairs: seq<(string, string)>)
    requires Closed(m) && Separate(cwd, root, tempDir, pairs)
    ensures var (m', e) := CopyAll(m, cwd, root, tempDir, pairs);
      e.None? ==> forall i :: 0 <= i < |pairs| ==>
        && SourceOf(cwd, root, pairs[i]) in m
        && Mirrors(m, m', SourceOf(cwd, root, pairs[i]), DestinationOf(cwd, root, tempDir, pairs[i]))
    decreases |pairs|
  {
    if pairs != [] {
      var sourcePath := SourcePath(root, pairs[0].0);
      var destinationPath := DestinationPath(tempDir, sourcePath, pairs[0].1);
      var dst := DestinationOf(cwd, root, tempDir, pairs[0]);
      var (m1, e1) := CopyPathResult(m, cwd, sourcePath, destinationPath);
      if e1.None? {
        var m' := CopyAll(m1, cwd, root, tempDir, pairs[1..]).0;
        FirstApart(cwd, root, tempDir, pairs);
        CopyPathConfined(m, cwd, sourcePath, destinationPath);
        CopyPathMirrors(m, cwd, sourcePath, destinationPath);
        SeparateTail(cwd, root, tempDir, pairs);
        CopyAllMirrors(m1, cwd, root, tempDir, pairs[1..]);
        CopyAllSameUnder(m1, cwd, root, tempDir, pairs[1..], dst);
        MirrorsKept(m, m1, m', SourceOf(cwd, root, pairs[0]), dst);
        if CopyAll(m1, cwd, root, tempDir, pairs[1..]).1.None? {
          LaterPairsMirror(m, m1, m', cwd, root, tempDir, pairs, dst);
        }
      }
    }
  }

  /** What `SetupDir` hands back: the temporary directory and the clean-up
      function, which returns to the working directory of the call. */
  datatype Cleanup = Cleanup(wd: Path)

  /** `SetupDir(t, pathsToCopy)`, with the map given as its pairs in the order
      the loop visits them and `t.TempDir()` as `tempDir`, a directory. A
      panic is returned as its message. The deferred change into the
      temporary directory runs whether or not a panic is under way; it cannot
      fail, because no copy turns a directory into anything else. */
  method SetupDir(fs: FileTree, tempDir: Path, pathsToCopy: seq<(string, string)>) returns (dir: string, cleanup: Cleanup, panicked: Option<string>)
    requires fs.Valid() && IsDirAt(fs.nodes, tempDir)
    modifies fs
    ensures fs.Valid() && fs.cwd == tempDir
    ensures dir == PathText(tempDir) && cleanup == Cleanup(old(fs.cwd))
    ensures var root := ProjectRoot(old(fs.nodes), old(fs.cwd));
      && (root.None? ==> panicked == Some(RootNotFound) && fs.nodes == old(fs.nodes))
      && (root.Some? ==>
            var (m', e) := CopyAll(old(fs.nodes), old(fs.cwd), root.value, tempDir, pathsToCopy);
            fs.nodes == m' && panicked == if e.Some? then Some(CopyPanic(e.value)) else None)
  {
    var wd := fs.Getwd();
    cleanup := Cleanup(wd);
    dir := PathText(tempDir);
    panicked := None;
    var root := FindProjectRoot(fs);
    if root.None? {
      panicked := Some(RootNotFound);
    } else {
      CopyAllKeeps(fs.nodes, fs.cwd, root.value, tempDir, pathsToCopy);
      assert pathsToCopy[0..] == pathsToCopy;
      var i := 0;
      while i < |pathsToCopy|
        invariant 0 <= i <= |pathsToCopy|
        invariant fs.Valid() && fs.cwd == old(fs.cwd)
        invariant CopyAll(fs.nodes, wd, root.value, tempDir, pathsToCopy[i..])
               == CopyAll(old(fs.nodes), wd, root.value, tempDir, pathsToCopy)
      {
        var (source, destination) := pathsToCopy[i];
        var sourcePath := SourcePath(root.value, source);
        var destinationPath := DestinationPath(tempDir, sourcePath, destination);
        assert pathsToCopy[i..][1..] == pathsToCopy[i + 1..];
        var err := CopyPath(fs, sourcePath, destinationPath);
        if err.Some? {
          panicked := Some(CopyPanic(err.value));
          break;
        }
        i := i + 1;
      }
    }
    // the deferred os.Chdir(tempDir)
    var err := fs.Chdir(tempDir);
    if err.Some? {
      // the panic "SetupDir: failed to os.Chdir: ..." cannot be raised
      assert false;
    }
  }

  /** The clean-up function: returns to the working directory `SetupDir` was
      called from, ignoring any error. */
  method RunCleanup(fs: FileTree, cleanup: Cleanup)
    requires fs.Valid()
    modifies fs
    ensures fs.Valid() && fs.nodes == old(fs.nodes)
    ensures fs.cwd == if IsDirAt(fs.nodes, cleanup.wd) then cleanup.wd else old(fs.cwd)
  {
    var _ := fs.Chdir(cleanup.wd);
  }
}
