/** pytest_ngsfixtures/os.py: collision-safe symlinking and copying of fixture
    files, and allocation of fixture directories under pytest's base
    temporary directory. `DATADIR`, used but not defined in that file, is the
    parameter `dataDir`; the warning logged on a skip is not modelled. */
module SafeOs {
  import opened Wrappers
  import opened Strings
  import opened Paths
  import opened LocalFs

  /** The source as the functions resolve it: a relative string below the
      data directory, an absolute string as written (normalised, as
      py.path.local does), a path object as it is. */
  function ResolveSrc(dataDir: Path, src: PathArg): (r: Path)
    ensures src.Local? ==> r == src.path
    ensures src.Str? && Normal(dataDir) ==> Normal(r)
  {
    match src
    case Local(q) => q
    case Str(s) =>
      SplitFields(s, '/');
      if IsAbs(s) then Normalize([], Split(s, '/')) else JoinPath(dataDir, s)
  }

  /** The destination: no destination means the source's basename, a string
      is joined below `p`, a path object is kept. */
  function ResolveDst(p: Path, src: Path, dst: Option<PathArg>): (r: Path)
    ensures dst.Some? && dst.value.Local? ==> r == dst.value.path
    ensures Normal(p) && !(dst.Some? && dst.value.Local?) ==> Normal(r)
  {
    match dst
    case None => JoinPath(p, Basename(src))
    case Some(Str(s)) => JoinPath(p, s)
    case Some(Local(q)) => q
  }

  /** `safe_symlink` on resolved paths: a destination that already is a link
      is skipped; otherwise its parent is ensured and the link made. */
  function Symlinked(m: Table, src: Path, dst: Path): (o: Outcome)
    ensures IsLinkIn(m, dst) ==> o == Outcome(m, Ok(dst))
    ensures o.result.Ok? ==> o.result.value == dst
  {
    if IsLinkIn(m, dst) then Outcome(m, Ok(dst))
    else
      var e := Ensure(m, Parent(dst));
      if e.result.Err? then e
      else
        var l := MakeSymlink(e.table, dst, src);
        if l.result.Err? then l else Outcome(l.table, Ok(dst))
  }

  /** `safe_copy` on resolved paths: a destination that already is a link is
      skipped; otherwise its parent is ensured and the source copied. */
  function Copied(m: Table, src: Path, dst: Path): (o: Outcome)
    ensures IsLinkIn(m, dst) ==> o == Outcome(m, Ok(dst))
    ensures o.result.Ok? ==> o.result.value == dst
  {
    if IsLinkIn(m, dst) then Outcome(m, Ok(dst))
    else
      var e := Ensure(m, Parent(dst));
      if e.result.Err? then e
      else
        var c := CopyFile(e.table, src, dst);
        if c.result.Err? then c else Outcome(c.table, Ok(dst))
  }

  method SafeSymlink(fs: FileSystem, dataDir: Path, p: Path, src: PathArg, dst: Option<PathArg>)
    returns (r: Result<Path, FsError>)
    requires fs.Valid()
    modifies fs
    ensures fs.Valid()
    ensures Outcome(fs.entries, r)
      == Symlinked(old(fs.entries), ResolveSrc(dataDir, src), ResolveDst(p, ResolveSrc(dataDir, src), dst))
  {
    var s := ResolveSrc(dataDir, src);
    var d := ResolveDst(p, s, dst);
    if !fs.IsLink(d) {
      var e := fs.EnsureDir(Parent(d));
      if e.Err? {
        return e;
      }
      var l := fs.MkSymlinkTo(d, s);
      if l.Err? {
        return l;
      }
    }
    return Ok(d);
  }

  method SafeCopy(fs: FileSystem, dataDir: Path, p: Path, src: PathArg, dst: Option<PathArg>)
    returns (r: Result<Path, FsError>)
    requires fs.Valid()
    modifies fs
    ensures fs.Valid()
    ensures Outcome(fs.entries, r)
      == Copied(old(fs.entries), ResolveSrc(dataDir, src), ResolveDst(p, ResolveSrc(dataDir, src), dst))
  {
    var s := ResolveSrc(dataDir, src);
    var d := ResolveDst(p, s, dst);
    if !fs.IsLink(d) {
      var e := fs.EnsureDir(Parent(d));
      if e.Err? {
        return e;
      }
      var c := fs.Copy(s, d);
      if c.Err? {
        return c;
      }
    }
    return Ok(d);
  }

  // ---------------------------------------------------------------------
  // Resolution

  /** A relative source `a/b` names `DATADIR/a/b`. */
  lemma ResolveRelativeSource(dataDir: Path, cs: seq<string>)
    requires Normal(cs) && cs != []
    ensures !IsAbs(Join(cs, "/"))
    ensures ResolveSrc(dataDir, Str(Join(cs, "/"))) == dataDir + cs
  {
    JoinNested(dataDir, cs);
    var s := Join(cs, "/");
    SplitJoin(cs, '/');
    JoinSplit(s, '/');
    if IsAbs(s) {
      // the first field of a string starting with '/' is empty
      assert Split(s, '/')[0] == "" by {
        FirstFieldOfSlash(s);
      }
    }
  }

  lemma FirstFieldOfSlash(s: string)
    requires IsAbs(s)
    ensures Split(s, '/')[0] == ""
    decreases |s|
  {
    if |s| > 1 {
      FirstFieldOfSlash(s[..|s| - 1]);
    } else {
      assert s[..0] == [];
    }
  }

  /** An absolute source string is used as the path it spells. */
  lemma ResolveAbsoluteSource(dataDir: Path, q: Path)
    requires Normal(q)
    ensures ResolveSrc(dataDir, Str(Text(q))) == q
  {
    TextRoundTrip(q);
  }

  /** Without a destination, the link or copy is named after the source. */
  lemma ResolveDefaultDestination(p: Path, src: Path)
    requires Normal(src) && src != []
    ensures ResolveDst(p, src, None) == p + [Basename(src)]
  {
    JoinNested(p, [Basename(src)]);
    assert Join([Basename(src)], "/") == Basename(src);
  }

  /** A destination string `a/b` names `p/a/b`. */
  lemma ResolveNestedDestination(p: Path, src: Path, cs: seq<string>)
    requires Normal(cs)
    ensures ResolveDst(p, src, Some(Str(Join(cs, "/")))) == p + cs
  {
    JoinNested(p, cs);
  }

  // ---------------------------------------------------------------------
  // safe_symlink

  /** `safe_symlink` succeeds exactly when the destination is a link already,
      or is free and no prefix of its parent is in the way. */
  lemma SymlinkSucceeds(m: Table, src: Path, dst: Path)
    requires ValidTable(m)
    ensures Symlinked(m, src, dst).result.Ok?
        <==> IsLinkIn(m, dst) || (dst !in m && !Blocked(m, Parent(dst)))
  {
    if !IsLinkIn(m, dst) {
      var e := Ensure(m, Parent(dst));
      EnsureFacts(m, Parent(dst));
      if e.result.Ok? {
        assert IsDirIn(e.table, Parent(dst)[..|Parent(dst)|]);
        assert Parent(dst)[..|Parent(dst)|] == Parent(dst);
        NotAddedByEnsure(m, dst);
      }
    }
  }

  /** `ensure` of the parent never adds the destination itself. */
  lemma NotAddedByEnsure(m: Table, dst: Path)
    requires ValidTable(m)
    ensures dst in Ensure(m, Parent(dst)).table <==> dst in m
  {
    EnsureFacts(m, Parent(dst));
  }

  /** A link made by `safe_symlink` points at the resolved source, and every
      ancestor of the destination is a directory; so the link's real path is
      the source's. */
  lemma SymlinkCreates(m: Table, src: Path, dst: Path)
    requires ValidTable(m)
    requires dst !in m && !Blocked(m, Parent(dst))
    ensures var o := Symlinked(m, src, dst);
      && o.result == Ok(dst)
      && o.table[dst] == Link(src)
      && forall j | 0 <= j < |dst| :: IsDirIn(o.table, dst[..j])
  {
    SymlinkSucceeds(m, src, dst);
    var e := Ensure(m, Parent(dst));
    EnsureFacts(m, Parent(dst));
    NotAddedByEnsure(m, dst);
    assert Parent(dst)[..|Parent(dst)|] == Parent(dst);
    forall j | 0 <= j < |dst| ensures IsDirIn(Symlinked(m, src, dst).table, dst[..j]) {
      assert dst[..j] == Parent(dst)[..j];
    }
  }

  /** `safe_symlink` keeps the table a tree, changes no existing entry and
      adds only the destination and its missing ancestors. */
  lemma SymlinkFrame(m: Table, src: Path, dst: Path)
    requires ValidTable(m)
    ensures var o := Symlinked(m, src, dst);
      && ValidTable(o.table)
      && (forall q | q in m :: q in o.table && o.table[q] == m[q])
      && (forall q | q in o.table :: q in m || q <= dst)
  {
    if !IsLinkIn(m, dst) {
      EnsureFacts(m, Parent(dst));
      NotAddedByEnsure(m, dst);
    }
  }

  /** A second identical `safe_symlink` does nothing and returns the same
      destination. */
  lemma SymlinkIdempotent(m: Table, src: Path, dst: Path)
    requires ValidTable(m)
    requires Symlinked(m, src, dst).result.Ok?
    ensures var o := Symlinked(m, src, dst);
      Symlinked(o.table, src, dst) == Outcome(o.table, Ok(dst))
  {
    if !IsLinkIn(m, dst) {
      SymlinkSucceeds(m, src, dst);
      SymlinkCreates(m, src, dst);
    }
  }

  // ---------------------------------------------------------------------
  // safe_copy

  /** Into a free place or over a regular file, `safe_copy` writes the
      source's bytes at the copy target (the destination, or the source's name
      inside a destination directory) and returns the destination. */
  lemma CopyWritesContent(m: Table, src: Path, dst: Path)
    requires ValidTable(m)
    requires !IsLinkIn(m, dst) && !Blocked(m, Parent(dst))
    requires src in m && m[src].File?
    requires CopyTarget(m, src, dst) != src
    requires CopyTarget(m, src, dst) in m ==> m[CopyTarget(m, src, dst)].File?
    ensures var o := Copied(m, src, dst);
      && o.result == Ok(dst)
      && CopyTarget(m, src, dst) in o.table
      && o.table[CopyTarget(m, src, dst)] == m[src]
      && forall j | 0 <= j < |dst| :: IsDirIn(o.table, dst[..j])
  {
    var e := Ensure(m, Parent(dst));
    ParentEnsured(m, dst);
    var t := CopyTarget(m, src, dst);
    assert |t| >= |dst|;
    assert CopyTarget(e.table, src, dst) == t;
    assert IsDirIn(e.table, Parent(t)) by {
      if t == dst {
        assert dst != [];
        assert Parent(dst) == dst[..|dst| - 1];
      } else {
        assert Parent(t) == dst;
      }
    }
    var o := Copied(m, src, dst);
    assert o.table == e.table[t := m[src]];
    forall j | 0 <= j < |dst| ensures IsDirIn(o.table, dst[..j]) {
      assert dst[..j] != t;
    }
  }

  /** Ensuring the parent of a destination that nothing blocks makes every
      ancestor of the destination a directory, keeps every entry and adds no
      path as long as the destination. */
  lemma ParentEnsured(m: Table, dst: Path)
    requires ValidTable(m) && !Blocked(m, Parent(dst))
    ensures var e := Ensure(m, Parent(dst));
      && e.result.Ok?
      && ValidTable(e.table)
      && (forall q | q in m :: q in e.table && e.table[q] == m[q])
      && (forall q | q in e.table && |q| >= |dst| :: q in m)
      && forall j | 0 <= j < |dst| :: IsDirIn(e.table, dst[..j])
  {
    EnsureFacts(m, Parent(dst));
    forall j | 0 <= j < |dst| ensures IsDirIn(Ensure(m, Parent(dst)).table, dst[..j]) {
      assert dst[..j] == Parent(dst)[..j];
    }
  }

  /** Copying over an existing regular file replaces its bytes and changes
      nothing else. */
  lemma CopyOverwritesFile(m: Table, src: Path, dst: Path)
    requires ValidTable(m)
    requires dst in m && m[dst].File?
    requires src in m && m[src].File? && src != dst
    ensures Copied(m, src, dst) == Outcome(m[dst := m[src]], Ok(dst))
  {
    assert dst != [];
    forall j | 0 <= j <= |Parent(dst)| ensures IsDirIn(m, Parent(dst)[..j]) {
      AncestorsAreDirs(m, dst, j);
      assert Parent(dst)[..j] == dst[..j];
    }
    EnsureExisting(m, Parent(dst));
  }

  /** `safe_copy` keeps the table a tree, changes at most the copy target
      among existing entries, and adds only the target and the missing
      ancestors of the destination. */
  lemma CopyFrame(m: Table, src: Path, dst: Path)
    requires ValidTable(m)
    ensures var o := Copied(m, src, dst);
      && ValidTable(o.table)
      && (forall q | q in m && q != CopyTarget(m, src, dst) :: q in o.table && o.table[q] == m[q])
      && (forall q | q in o.table :: q in m || q <= dst || q == CopyTarget(m, src, dst))
  {
    if !IsLinkIn(m, dst) {
      var e := Ensure(m, Parent(dst));
      EnsureFacts(m, Parent(dst));
      if e.result.Ok? {
        NotAddedByEnsure(m, dst);
        var t := CopyTarget(m, src, dst);
        assert CopyTarget(e.table, src, dst) == t;
        var c := CopyFile(e.table, src, dst);
        assert Copied(m, src, dst).table == c.table;
        FrameAfterCopy(m, e.table, c.table, t, dst);
      }
    }
  }

  /** Entries kept by `ensure`, then at most `t` rewritten by `copy`: only `t`
      can change, and only `t` and prefixes of `dst` can appear. */
  lemma FrameAfterCopy(m: Table, e: Table, c: Table, t: Path, dst: Path)
    requires forall q | q in m :: q in e && e[q] == m[q]
    requires forall q | q in e :: q in m || q <= Parent(dst)
    requires c == e || (t in c && c == e[t := c[t]])
    ensures forall q | q in m && q != t :: q in c && c[q] == m[q]
    ensures forall q | q in c :: q in m || q <= dst || q == t
  {
    forall q | q in c
      ensures q in m || q <= dst || q == t
    {
      if q != t && q !in m {
        assert q <= Parent(dst);
      }
    }
  }

  /** Repeating a successful `safe_copy` yields the same state and result. */
  lemma CopyRepeat(m: Table, src: Path, dst: Path)
    requires ValidTable(m)
    requires Copied(m, src, dst).result.Ok?
    ensures var o := Copied(m, src, dst);
      Copied(o.table, src, dst) == o
  {
    var o := Copied(m, src, dst);
    if !IsLinkIn(m, dst) {
      var e := Ensure(m, Parent(dst));
      EnsureFacts(m, Parent(dst));
      NotAddedByEnsure(m, dst);
      var c := CopyFile(e.table, src, dst);
      CopyFileRepeat(e.table, src, dst);
      var t := CopyTarget(e.table, src, dst);
      assert o.table == c.table == e.table[t := e.table[src]];
      assert !IsDirIn(e.table, t);
      assert !IsLinkIn(o.table, dst);
      forall j | 0 <= j <= |Parent(dst)| ensures IsDirIn(o.table, Parent(dst)[..j]) {
        assert IsDirIn(e.table, Parent(dst)[..j]);
      }
      EnsureExisting(o.table, Parent(dst));
    }
  }

  /** Repeating a successful `copy` changes nothing. */
  lemma CopyFileRepeat(m: Table, src: Path, dst: Path)
    requires CopyFile(m, src, dst).result.Ok?
    ensures var c := CopyFile(m, src, dst);
      CopyFile(c.table, src, dst) == c
  {
    var c := CopyFile(m, src, dst);
    var t := CopyTarget(m, src, dst);
    assert c.table == m[t := m[src]];
    assert IsDirIn(m, Parent(t)) && !IsDirIn(m, t);
    assert CopyTarget(c.table, src, dst) == t;
  }

  // ---------------------------------------------------------------------
  // safe_mktemp

  /** `safe_mktemp(factory, name)` without numbering: the directory part of
      `name` is ensured, then `base/name` is reused if it is a directory or
      made otherwise. */
  function FixedTemp(m: Table, base: Path, name: string): (o: Outcome)
    ensures o.result.Ok? ==> o.result.value == JoinPath(base, name)
    ensures forall p | p in m :: p in o.table && o.table[p] == m[p]
  {
    var e := Ensure(m, JoinPath(base, DirName(name)));
    if e.result.Err? then e
    else
      var p := JoinPath(base, name);
      if IsDirIn(e.table, p) then Outcome(e.table, Ok(p)) else MakeDir(e.table, p)
  }

  /** `safe_mktemp(factory, name, numbered=True)` when the factory picks the
      number `n`. */
  function NumberedTemp(m: Table, base: Path, name: string, n: nat): (o: Outcome)
    ensures o.result.Ok? ==> o.result.value == NumberedPath(base, name, n) && FreshNumber(m, base, name, n)
    ensures forall p | p in m :: p in o.table && o.table[p] == m[p]
  {
    var e := Ensure(m, JoinPath(base, DirName(name)));
    if e.result.Err? then e else MakeDir(e.table, NumberedPath(base, name, n))
  }

  /** The numbers the factory may pick: those whose directory does not exist
      once the directory part of `name` is ensured. */
  predicate FreshNumber(m: Table, base: Path, name: string, n: nat)
    ensures FreshNumber(m, base, name, n) ==> NumberedPath(base, name, n) !in m
  {
    NumberedPath(base, name, n) !in Ensure(m, JoinPath(base, DirName(name))).table
  }

  method SafeMkTemp(factory: TmpdirFactory, dirname: Option<string>, numbered: bool)
    returns (r: Result<Path, FsError>)
    requires factory.Valid()
    modifies factory.fs
    ensures factory.Valid()
    ensures dirname.None? ==> r == Ok(factory.base) && factory.fs.entries == old(factory.fs.entries)
    ensures dirname.Some? && !numbered ==>
      Outcome(factory.fs.entries, r) == FixedTemp(old(factory.fs.entries), factory.base, dirname.value)
    ensures dirname.Some? && numbered ==>
      exists n: nat :: FreshNumber(old(factory.fs.entries), factory.base, dirname.value, n)
        && Outcome(factory.fs.entries, r) == NumberedTemp(old(factory.fs.entries), factory.base, dirname.value, n)
  {
    if dirname.None? {
      return Ok(factory.GetBaseTemp());
    }
    var name := dirname.value;
    EnsureFacts(factory.fs.entries, JoinPath(factory.base, DirName(name)));
    var e := factory.fs.EnsureDir(JoinPath(factory.GetBaseTemp(), DirName(name)));
    if e.Err? {
      ghost var k := FreshNumberExists(factory.fs.entries, factory.base, name);
      assert FreshNumber(old(factory.fs.entries), factory.base, name, k);
      assert Outcome(factory.fs.entries, e) == NumberedTemp(old(factory.fs.entries), factory.base, name, k);
      return e;
    }
    if numbered {
      ghost var n;
      r, n := factory.MkTemp(name, true);
      assert FreshNumber(old(factory.fs.entries), factory.base, name, n);
    } else {
      var p := JoinPath(factory.GetBaseTemp(), name);
      if factory.fs.IsDir(p) {
        r := Ok(p);
      } else {
        ghost var n;
        r, n := factory.MkTemp(name, false);
      }
    }
  }

  /** Without numbering, `safe_mktemp` returns `base/name`, a directory
      afterwards, after making every prefix of `base/dirname(name)` a
      directory; it keeps the table a tree and every entry as it was. */
  lemma FixedTempResult(m: Table, base: Path, name: string)
    requires ValidTable(m)
    ensures var o := FixedTemp(m, base, name);
      && ValidTable(o.table)
      && (forall q | q in m :: q in o.table && o.table[q] == m[q])
      && (forall q | q in o.table :: q in m || q <= JoinPath(base, DirName(name)) || q == JoinPath(base, name))
      && (o.result.Ok? ==>
            && o.result.value == JoinPath(base, name)
            && IsDirIn(o.table, o.result.value)
            && var d := JoinPath(base, DirName(name));
               forall j | 0 <= j <= |d| :: IsDirIn(o.table, d[..j]))
  {
    var d := JoinPath(base, DirName(name));
    EnsureFacts(m, d);
  }

  /** Calling `safe_mktemp` again without numbering returns the same path
      and changes nothing. */
  lemma FixedTempRepeat(m: Table, base: Path, name: string)
    requires ValidTable(m)
    requires FixedTemp(m, base, name).result.Ok?
    ensures var o := FixedTemp(m, base, name);
      FixedTemp(o.table, base, name) == o
  {
    var o := FixedTemp(m, base, name);
    var d := JoinPath(base, DirName(name));
    EnsureFacts(m, d);
    FixedTempResult(m, base, name);
    var e := Ensure(m, d);
    forall j | 0 <= j <= |d| ensures IsDirIn(o.table, d[..j]) {
    }
    EnsureExisting(o.table, d);
  }

  /** `safe_mktemp(factory, "foo")` is `base/foo`: reused when it is a
      directory, made when it is missing. */
  lemma FixedTempPlainName(m: Table, base: Path, name: string)
    requires ValidTable(m) && IsDirIn(m, base) && PlainName(name)
    ensures var o := FixedTemp(m, base, name);
      && (IsDirIn(m, base + [name]) ==> o == Outcome(m, Ok(base + [name])))
      && (base + [name] !in m ==> o == Outcome(m[base + [name] := Dir], Ok(base + [name])))
  {
    JoinSelf(base);
    JoinNested(base, [name]);
    assert Join([name], "/") == name;
    DirEnsured(m, base);
    assert Parent(base + [name]) == base;
  }

  /** `safe_mktemp(factory, ".")` is the base directory itself. */
  lemma FixedTempCurrentDir(m: Table, base: Path)
    requires ValidTable(m) && IsDirIn(m, base)
    ensures FixedTemp(m, base, ".") == Outcome(m, Ok(base))
  {
    JoinSelf(base);
    DirEnsured(m, base);
  }

  /** With numbering, a successful `safe_mktemp` returns a directory that did
      not exist before, named `name` followed by the number. */
  lemma NumberedTempResult(m: Table, base: Path, name: string, n: nat)
    requires ValidTable(m)
    ensures var o := NumberedTemp(m, base, name, n);
      && ValidTable(o.table)
      && (forall q | q in m :: q in o.table && o.table[q] == m[q])
      && (forall q | q in o.table :: q in m || q <= JoinPath(base, DirName(name)) || q == NumberedPath(base, name, n))
      && (o.result.Ok? ==>
            && o.result.value == NumberedPath(base, name, n)
            && o.result.value !in m
            && IsDirIn(o.table, o.result.value))
  {
    EnsureFacts(m, JoinPath(base, DirName(name)));
  }
}
