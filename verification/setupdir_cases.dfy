/** The situations tester/setupdir_test.go sets up, stated over any file tree
    that holds them and derived from the general properties of the copy. A
    test's `t.TempDir()` is a fresh directory: one with nothing under it. */
module SetupDirCases {
  import opened Wrappers
  import opened Text
  import opened FileSystem
  import opened SetupDirs

  /** An empty directory, as `t.TempDir()` makes. */
  ghost predicate EmptyDir(m: map<Path, Node>, d: Path) {
    IsDirAt(m, d) && forall k :: k in m && IsPrefix(d, k) ==> k == d
  }

  /** The copies of the entries at and under `src` all fit under `dst`. */
  ghost predicate CopiesFit(m: map<Path, Node>, src: Path, dst: Path) {
    forall k :: k in m && IsPrefix(src, k) ==> Fits(dst + k[|src|..])
  }

  /** Nothing stands in the way of a copy into a place where nothing is yet,
      or where only an empty directory is. */
  lemma CopyIntoEmpty(m: map<Path, Node>, src: Path, dst: Path)
    requires IsDirAt(m, src) && CopiesFit(m, src, dst) && FileOn(m, dst).None?
    requires forall k :: k in m && IsPrefix(dst, k) ==> k == dst && m[k] == Dir
    ensures CanCopyDir(m, src, dst)
  {
    forall k | k in m && IsPrefix(src, k) && dst + k[|src|..] in m
      ensures m[dst + k[|src|..]] == Dir <==> m[k] == Dir
    {
      var t := dst + k[|src|..];
      assert t[..|dst|] == dst;
      assert k[|src|..] == [] && k == k[..|src|];
    }
  }

  /** A new entry of an empty directory has nothing at or under it and no
      file above it. */
  lemma EntryOfEmptyDir(m: map<Path, Node>, d: Path, n: Name)
    requires Closed(m) && EmptyDir(m, d)
    ensures FileOn(m, d + [n]).None?
    ensures forall k :: k in m ==> !IsPrefix(d + [n], k)
  {
    forall k | k in m
      ensures !IsPrefix(d + [n], k)
    {
      UnderChild(d, n, k);
    }
    assert IsPrefix(d + [n], d + [n]);
    DirHasNoFileOn(m, d);
    FileOnChild(m, d, n);
  }

  /** What lies at or under an entry of `d` lies strictly under `d`. */
  lemma UnderChild(d: Path, n: Name, k: Path)
    ensures IsPrefix(d + [n], k) ==> IsPrefix(d, k) && k != d
  {
    if IsPrefix(d + [n], k) {
      assert k[..|d|] == (d + [n])[..|d|];
    }
  }

  /** `os.MkdirAll` of a directory that exists changes nothing. */
  lemma MakeDirsExisting(m: map<Path, Node>, p: Path)
    requires Closed(m) && IsDirAt(m, p)
    ensures MakeDirs(m, p) == (m, None)
  {
    DirHasNoFileOn(m, p);
    MakeDirsFitting(m, p);
    WithDirsPresent(m, p);
  }

  /** With no file in the way and a path that fits, `os.MkdirAll` adds the
      directories and reports no error. */
  lemma MakeDirsFitting(m: map<Path, Node>, p: Path)
    requires FileOn(m, p).None? && Fits(p)
    ensures MakeDirs(m, p) == (WithDirs(m, p), None)
  {
    assert LongestFit(p) == |p|;
  }

  /** Adding the directories down to an existing directory adds nothing. */
  lemma WithDirsPresent(m: map<Path, Node>, p: Path)
    requires Closed(m) && IsDirAt(m, p)
    ensures WithDirs(m, p) == m
  {
    forall k | IsPrefix(k, p)
      ensures k in m && m[k] == Dir
    {
      if |k| < |p| {
        AncestorIsDir(m, p, |k|);
      } else {
        assert k == p;
      }
    }
  }

  /** TestCopyFile: a file copied to a new name in another, empty,
      directory holds the source's content. */
  lemma CopyFileCase(m: map<Path, Node>, src: Path, dstDir: Path, b: Name, content: string)
    requires Closed(m) && EmptyDir(m, dstDir)
    requires src in m && m[src] == File(content)
    requires Fits(dstDir + [b])
    ensures var (m', e) := CopyFileResult(m, src, dstDir + [b]);
      e.None? && dstDir + [b] in m' && m'[dstDir + [b]] == File(content)
  {
    var dst := dstDir + [b];
    EntryOfEmptyDir(m, dstDir, b);
    assert IsPrefix(dst, dst) && Parent(dst) == dstDir;
    DirHasNoFileOn(m, dstDir);
    CopyFileSpec(m, src, dst);
  }

  /** TestCopyDirectory_Ok: copying a directory into an empty one brings a
      file of it, and a file of a directory of it, along with their
      contents. */
  lemma CopyDirectoryOkCase(m: map<Path, Node>, src: Path, dst: Path, file1: Name, subdir: Name, file2: Name)
    requires Closed(m) && IsDirAt(m, src) && EmptyDir(m, dst) && Disjoint(src, dst) && CopiesFit(m, src, dst)
    requires src + [file1] in m && src + [subdir, file2] in m
    ensures var (m', e) := CopyDir(m, src, dst);
      && e.None?
      && dst + [file1] in m' && m'[dst + [file1]] == m[src + [file1]]
      && dst + [subdir, file2] in m' && m'[dst + [subdir, file2]] == m[src + [subdir, file2]]
  {
    DirHasNoFileOn(m, dst);
    CopyIntoEmpty(m, src, dst);
    CopyDirSpec(m, src, dst);
    var m' := CopyDir(m, src, dst).0;
    MirroredAt(m, m', src, dst, [file1]);
    MirroredAt(m, m', src, dst, [subdir, file2]);
  }

  /** TestCopyDirectory_Error: copying a directory that does not exist fails
      when it is listed, with the error number whose text is "no such file
      or directory", and changes nothing. */
  lemma CopyDirectoryErrorCase(m: map<Path, Node>, source: Path, n: Name, dst: Path)
    requires Closed(m) && IsDirAt(m, source) && IsDirAt(m, dst)
    requires source + [n] !in m && Fits(source + [n])
    ensures CopyDir(m, source + [n], dst) == (m, Some(PathError("open", PathText(source + [n]), NoEntry)))
  {
    var src := source + [n];
    MakeDirsExisting(m, dst);
    DirHasNoFileOn(m, source);
    assert Parent(src) == source;
    assert LookupErrno(m, src) == NoEntry;
    assert CopyDir(m, src, dst) == (m, ReadDirError(m, src));
  }

  /** With one pair naming an existing source, the copies are that
      source's `copyFile` or `copyDirectory`. */
  lemma SingleCopy(m: map<Path, Node>, cwd: Path, root: Path, tempDir: Path, source: string, destination: string)
    requires var sourcePath := SourcePath(root, source);
      sourcePath != "" && Resolve(cwd, sourcePath) in m
    ensures var sourcePath := SourcePath(root, source);
      var src := Resolve(cwd, sourcePath);
      var dst := Resolve(cwd, DestinationPath(tempDir, sourcePath, destination));
      CopyAll(m, cwd, root, tempDir, [(source, destination)])
        == if m[src] == Dir then CopyDir(m, src, dst) else CopyFileResult(m, src, dst)
  {
    CopyAllSingle(m, cwd, root, tempDir, source, destination);
  }

  /** The source and destination texts of a pair whose source names an
      existing path and holds no `@`, with no destination given. */
  lemma DefaultDestination(root: Path, tempDir: Path, cwd: Path, src: Path)
    requires src != [] && '@' !in PathText(src)
    ensures SourcePath(root, PathText(src)) == PathText(src)
    ensures Resolve(cwd, PathText(src)) == src
    ensures Resolve(cwd, DestinationPath(tempDir, PathText(src), "")) == tempDir + [src[|src| - 1]]
  {
    ReplaceCharAbsent(PathText(src), '@', PathText(root));
    ResolvePathText(cwd, src);
    BaseOfPath(src);
    ResolveJoinName(cwd, tempDir, src[|src| - 1]);
  }

  /** TestSetupDir_ValidFiles: a file given with no destination is copied
      into the temporary directory under its own name. */
  lemma ValidFilesCase(m: map<Path, Node>, cwd: Path, root: Path, tempDir: Path, src: Path, content: string)
    requires Closed(m) && EmptyDir(m, tempDir)
    requires src != [] && '@' !in PathText(src) && src in m && m[src] == File(content)
    requires Fits(tempDir + [src[|src| - 1]])
    ensures var (m', e) := CopyAll(m, cwd, root, tempDir, [(PathText(src), "")]);
      e.None? && tempDir + [src[|src| - 1]] in m' && m'[tempDir + [src[|src| - 1]]] == File(content)
  {
    DefaultDestination(root, tempDir, cwd, src);
    SingleCopy(m, cwd, root, tempDir, PathText(src), "");
    CopyFileCase(m, src, tempDir, src[|src| - 1], content);
  }

  /** TestSetupDir_DirectoryCopy: a directory given with no destination is
      copied, with what it holds, into the temporary directory under its own
      name. */
  lemma DirectoryCopyCase(m: map<Path, Node>, cwd: Path, root: Path, tempDir: Path, src: Path, content: string)
    requires Closed(m) && EmptyDir(m, tempDir)
    requires src != [] && '@' !in PathText(src) && IsDirAt(m, src)
    requires src + ["file.txt"] in m && m[src + ["file.txt"]] == File(content)
    requires Disjoint(src, tempDir + [src[|src| - 1]]) && CopiesFit(m, src, tempDir + [src[|src| - 1]])
    ensures var (m', e) := CopyAll(m, cwd, root, tempDir, [(PathText(src), "")]);
      var dst := tempDir + [src[|src| - 1]];
      && e.None? && IsDirAt(m', dst)
      && dst + ["file.txt"] in m' && m'[dst + ["file.txt"]] == File(content)
  {
    DefaultDestination(root, tempDir, cwd, src);
    SingleCopy(m, cwd, root, tempDir, PathText(src), "");
    DirIntoEmptyDir(m, src, tempDir, src[|src| - 1], "file.txt", content);
  }

  /** A directory copied to a new entry `n` of an empty directory `d` is a
      directory there, and its file `f` is copied along. */
  lemma DirIntoEmptyDir(m: map<Path, Node>, src: Path, d: Path, n: Name, f: Name, content: string)
    requires Closed(m) && EmptyDir(m, d) && IsDirAt(m, src)
    requires src + [f] in m && m[src + [f]] == File(content)
    requires Disjoint(src, d + [n]) && CopiesFit(m, src, d + [n])
    ensures var (m', e) := CopyDir(m, src, d + [n]);
      && e.None? && IsDirAt(m', d + [n])
      && d + [n] + [f] in m' && m'[d + [n] + [f]] == File(content)
  {
    var dst := d + [n];
    CopyIntoNewEntry(m, src, d, n);
    var m' := CopyDir(m, src, dst).0;
    MirroredAt(m, m', src, dst, [f]);
    assert src + [] == src && dst + [] == dst;
    MirroredAt(m, m', src, dst, []);
  }

  /** A directory copied to a new entry of an empty directory succeeds and
      mirrors the source there. */
  lemma CopyIntoNewEntry(m: map<Path, Node>, src: Path, d: Path, n: Name)
    requires Closed(m) && EmptyDir(m, d) && IsDirAt(m, src)
    requires Disjoint(src, d + [n]) && CopiesFit(m, src, d + [n])
    ensures var (m', e) := CopyDir(m, src, d + [n]); e.None? && Mirrors(m, m', src, d + [n])
  {
    EntryOfEmptyDir(m, d, n);
    CopyIntoEmpty(m, src, d + [n]);
    CopyDirSpec(m, src, d + [n]);
  }

  /** A relative text of two names resolves to those names under the
      directory it is joined to. */
  lemma ResolveTwoNames(cwd: Path, d: Path, a: Name, b: Name)
    ensures Resolve(cwd, PathText(d) + "/" + (a + "/" + b)) == d + [a, b]
  {
    ResolveJoin(cwd, d, a + "/" + b);
    SplitJoin(a, b);
    SplitName(a);
    SplitName(b);
    WalkNames(d, [a, b]);
  }

  /** TestSetupDir_DestinationPath: a file given with a destination of two
      components, such as "custom/destination.txt", is copied there, the
      directory between them made on the way. */
  lemma DestinationPathCase(m: map<Path, Node>, cwd: Path, root: Path, tempDir: Path, src: Path, a: Name, b: Name, content: string)
    requires Closed(m) && EmptyDir(m, tempDir)
    requires '@' !in PathText(src) && src in m && m[src] == File(content)
    requires Fits(tempDir + [a, b])
    ensures var (m', e) := CopyAll(m, cwd, root, tempDir, [(PathText(src), a + "/" + b)]);
      && e.None?
      && IsDirAt(m', tempDir + [a])
      && tempDir + [a, b] in m' && m'[tempDir + [a, b]] == File(content)
  {
    var dst := tempDir + [a, b];
    ReplaceCharAbsent(PathText(src), '@', PathText(root));
    ResolvePathText(cwd, src);
    ResolveTwoNames(cwd, tempDir, a, b);
    SingleCopy(m, cwd, root, tempDir, PathText(src), a + "/" + b);
    FileIntoNewDir(m, src, tempDir, a, b, content);
  }

  lemma FileIntoNewDir(m: map<Path, Node>, src: Path, tempDir: Path, a: Name, b: Name, content: string)
    requires Closed(m) && EmptyDir(m, tempDir)
    requires src in m && m[src] == File(content)
    requires Fits(tempDir + [a, b])
    ensures var (m', e) := CopyFileResult(m, src, tempDir + [a, b]);
      && e.None?
      && IsDirAt(m', tempDir + [a])
      && tempDir + [a, b] in m' && m'[tempDir + [a, b]] == File(content)
  {
    var dst := tempDir + [a, b];
    ParentOfTwo(tempDir, a, b);
    EntryOfEmptyDir(m, tempDir, a);
    CopyFileSpec(m, src, dst);
    CopyFileKeeps(m, src, dst);
    ParentIsDir(CopyFileResult(m, src, dst).0, dst);
  }

  lemma ParentOfTwo(d: Path, a: Name, b: Name)
    ensures Parent(d + [a, b]) == d + [a] && IsPrefix(d + [a], d + [a, b])
  {
    assert d + [a, b] == (d + [a]) + [b];
  }

  /** In a well-formed tree the directory of an entry other than the root
      is a directory. */
  lemma ParentIsDir(m: map<Path, Node>, k: Path)
    requires Closed(m) && k in m && k != []
    ensures IsDirAt(m, Parent(k))
  {
  }

  /** TestSetupDir_NonExistentSource: a relative source that names nothing
      makes the copies fail on `os.Stat`, so `SetupDir` panics. */
  lemma NonExistentSourceCase(m: map<Path, Node>, cwd: Path, root: Path, tempDir: Path, n: Name)
    requires '@' !in n && cwd + [n] !in m
    ensures var e := CopyAll(m, cwd, root, tempDir, [(n, "")]).1;
      e.Some? && e.value.op == "stat" && e.value.path == n
  {
    CopyAllSingle(m, cwd, root, tempDir, n, "");
    ReplaceCharAbsent(n, '@', PathText(root));
    SplitName(n);
    WalkNames(cwd, [n]);
  }
}
