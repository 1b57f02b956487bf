/** The filesystem that os.py works on, as a table from absolute paths to
    entries, with the py.path.local operations the core calls (`ensure(dir=True)`,
    `mkdir`, `mksymlinkto`, `copy`, `check(link=1)`, `check(dir=1)`) and pytest's
    temporary-directory factory (`getbasetemp`, `mktemp`). `ensure(dir=True)`,
    `mkdir`, `mksymlinkto` and `copy` are functions from the old table to an
    `Outcome`, which the methods of `FileSystem` perform in place and are
    proved to agree with; `check(link=1)` and `check(dir=1)` are predicates on
    the table; `getbasetemp()` is the factory's fixed base directory; and
    `mktemp` is a method of `TmpdirFactory` that makes its directory with
    `FileSystem.Mkdir`. */
module LocalFs {
  import opened Wrappers
  import opened Strings
  import opened Paths

  /** What a path holds. File contents are opaque bytes; a link holds the
      absolute path it points to. */
  datatype Entry = Dir | File(content: seq<int>) | Link(target: Path)

  type Table = map<Path, Entry>

  /** The errors the modelled operations raise. */
  datatype FsError =
    | NotADirectory(path: Path)  // ENOTDIR; also what ensure() meeting a non-directory raises here, where py.path re-raises EEXIST
    | AlreadyExists(path: Path)  // EEXIST
    | NoSuchFile(path: Path)     // ENOENT
    | IsADirectory(path: Path)   // EISDIR: writing file content onto a directory
    | SameFile(path: Path)       // copy()'s `assert self != target`
    | NotModelled(path: Path)    // an operation through a symlink or on a directory tree

  /** The table after an operation, and what the operation returned or raised. */
  datatype Outcome = Outcome(table: Table, result: Result<Path, FsError>)

  predicate IsDirIn(m: Table, p: Path) {
    p in m && m[p] == Dir
  }

  /** `p.check(link=1)` */
  predicate IsLinkIn(m: Table, p: Path) {
    p in m && m[p].Link?
  }

  /** The table is a tree: the root is a directory and every other entry sits
      in a directory. */
  predicate ValidTable(m: Table) {
    IsDirIn(m, []) && forall p | p in m && p != [] :: IsDirIn(m, Parent(p))
  }

  /** Every proper ancestor of an entry of a tree is a directory of it. */
  lemma {:induction false} AncestorsAreDirs(m: Table, p: Path, k: nat)
    requires ValidTable(m) && p in m && k <= |p|
    ensures p[..k] in m
    ensures k < |p| ==> m[p[..k]] == Dir
    decreases |p| - k
  {
    if k == |p| {
      assert p[..k] == p;
    } else {
      var q := Parent(p);
      assert q == p[..|p| - 1];
      if k == |p| - 1 {
      } else {
        AncestorsAreDirs(m, q, k);
        assert q[..k] == p[..k];
      }
    }
  }

  /** Some prefix of `d` is present in `m` and is not a directory. */
  predicate Blocked(m: Table, d: Path) {
    exists j | 0 <= j <= |d| :: d[..j] in m && m[d[..j]] != Dir
  }

  /** `ensure(dir=True)` of py.path, from the prefix of length `i` of `d` on:
      a missing prefix becomes a directory, a directory is passed, anything
      else stops it. */
  function EnsureFrom(m: Table, d: Path, i: nat): (o: Outcome)
    requires i <= |d| + 1
    ensures o.result.Ok? ==> o.result.value == d
    ensures o.result.Err? ==> o.result.error.NotADirectory? && o.result.error.path <= d
    decreases |d| + 1 - i
  {
    if i == |d| + 1 then Outcome(m, Ok(d))
    else if d[..i] !in m then EnsureFrom(m[d[..i] := Dir], d, i + 1)
    else if m[d[..i]] == Dir then EnsureFrom(m, d, i + 1)
    else Outcome(m, Err(NotADirectory(d[..i])))
  }

  /** `d.ensure(dir=True)`: make `d` and all its ancestors directories. */
  function Ensure(m: Table, d: Path): (o: Outcome)
    ensures o.result.Ok? ==> o.result.value == d
    ensures o.result.Err? ==> o.result.error.NotADirectory? && o.result.error.path <= d
    ensures forall p | p in m :: p in o.table && o.table[p] == m[p]
    ensures forall p | p in o.table :: p in m || p <= d
    ensures o.result.Err? ==> o.result.error.path in m && m[o.result.error.path] != Dir
  {
    EnsureFromKeeps(m, d, 0);
    EnsureFromErrNamesBlocker(m, d, 0);
    EnsureFrom(m, d, 0)
  }

  /** The prefix a failing `ensure` names exists and is not a directory. */
  lemma {:induction false} EnsureFromErrNamesBlocker(m: Table, d: Path, i: nat)
    requires i <= |d| + 1
    ensures var o := EnsureFrom(m, d, i);
      o.result.Err? ==> o.result.error.path in m && m[o.result.error.path] != Dir
    decreases |d| + 1 - i
  {
    if i == |d| + 1 {
    } else if d[..i] !in m {
      EnsureFromErrNamesBlocker(m[d[..i] := Dir], d, i + 1);
    } else if m[d[..i]] == Dir {
      EnsureFromErrNamesBlocker(m, d, i + 1);
    }
  }

  /** `ensure` keeps every entry and adds only prefixes of `d`. */
  lemma {:induction false} EnsureFromKeeps(m: Table, d: Path, i: nat)
    requires i <= |d| + 1
    ensures var o := EnsureFrom(m, d, i);
      && (forall p | p in m :: p in o.table && o.table[p] == m[p])
      && (forall p | p in o.table :: p in m || p <= d)
    decreases |d| + 1 - i
  {
    if i == |d| + 1 {
    } else if d[..i] !in m {
      EnsureFromKeeps(m[d[..i] := Dir], d, i + 1);
      assert d[..i] <= d;
    } else if m[d[..i]] == Dir {
      EnsureFromKeeps(m, d, i + 1);
    }
  }

  /** A prefix of `d` that is missing from a tree has no deeper prefix of
      `d` below it, so nothing blocks `d` before or after it is made. */
  lemma AbsentPrefixUnblocked(m: Table, d: Path, i: nat)
    requires ValidTable(m) && i <= |d| && d[..i] !in m
    requires forall j | 0 <= j < i :: IsDirIn(m, d[..j])
    ensures !Blocked(m, d)
    ensures !Blocked(m[d[..i] := Dir], d)
  {
    forall j | 0 <= j <= |d| && d[..j] in m ensures m[d[..j]] == Dir {
      if j >= i {
        assert d[..j][..i] == d[..i];
        AncestorsAreDirs(m, d[..j], i);
      }
    }
    var m' := m[d[..i] := Dir];
    forall j | 0 <= j <= |d| && d[..j] in m' ensures m'[d[..j]] == Dir {
      if j != i && d[..j] == d[..i] {
        assert |d[..j]| == |d[..i]|;
      }
    }
  }

  /** Making a missing prefix of `d` a directory, once the shorter prefixes
      are directories, keeps the table a tree. */
  lemma PrefixDirValid(m: Table, d: Path, i: nat)
    requires ValidTable(m) && i <= |d| && d[..i] !in m
    requires forall j | 0 <= j < i :: IsDirIn(m, d[..j])
    ensures ValidTable(m[d[..i] := Dir])
  {
    assert i > 0 by { assert d[..0] == []; }
    assert Parent(d[..i]) == d[..i - 1];
    assert IsDirIn(m, d[..i - 1]);
  }

  /** Making the prefix of length `i` a directory keeps the shorter prefixes
      directories. */
  lemma PrefixesStayDirs(m: Table, d: Path, i: nat)
    requires i <= |d| && forall j | 0 <= j < i :: IsDirIn(m, d[..j])
    ensures forall j | 0 <= j < i + 1 :: IsDirIn(m[d[..i] := Dir], d[..j])
  {
  }

  /** `ensure` keeps the table a tree. */
  lemma {:induction false} EnsureFromTable(m: Table, d: Path, i: nat)
    requires ValidTable(m) && i <= |d| + 1
    requires forall j | 0 <= j < i :: IsDirIn(m, d[..j])
    ensures ValidTable(EnsureFrom(m, d, i).table)
    decreases |d| + 1 - i
  {
    if i == |d| + 1 {
    } else if d[..i] !in m {
      var m' := m[d[..i] := Dir];
      PrefixDirValid(m, d, i);
      PrefixesStayDirs(m, d, i);
      EnsureFromTable(m', d, i + 1);
    } else if m[d[..i]] == Dir {
      EnsureFromTable(m, d, i + 1);
    }
  }

  /** `ensure` fails exactly when a prefix of `d` is blocked, then leaves the
      table alone; otherwise it returns `d` with every prefix a directory. */
  lemma {:induction false} EnsureFromResult(m: Table, d: Path, i: nat)
    requires ValidTable(m) && i <= |d| + 1
    requires forall j | 0 <= j < i :: IsDirIn(m, d[..j])
    ensures var o := EnsureFrom(m, d, i);
      && (o.result.Ok? <==> !Blocked(m, d))
      && (o.result.Ok? ==> forall j | 0 <= j <= |d| :: IsDirIn(o.table, d[..j]))
      && (o.result.Err? ==> o.table == m)
    decreases |d| + 1 - i
  {
    if i == |d| + 1 {
      assert !Blocked(m, d) by {
        forall j | 0 <= j <= |d| ensures IsDirIn(m, d[..j]) {
        }
      }
    } else if d[..i] !in m {
      var m' := m[d[..i] := Dir];
      PrefixDirValid(m, d, i);
      PrefixesStayDirs(m, d, i);
      AbsentPrefixUnblocked(m, d, i);
      EnsureFromResult(m', d, i + 1);
    } else if m[d[..i]] == Dir {
      EnsureFromResult(m, d, i + 1);
    } else {
      assert Blocked(m, d);
    }
  }

  /** What `d.ensure(dir=True)` does to a tree: it fails exactly when some
      prefix of `d` is there and is not a directory, and then changes nothing;
      otherwise it returns `d`, every prefix of `d` is a directory, existing
      entries are left as they were and only prefixes of `d` are added. */
  lemma EnsureFacts(m: Table, d: Path)
    requires ValidTable(m)
    ensures var o := Ensure(m, d);
      && ValidTable(o.table)
      && (o.result.Ok? <==> !Blocked(m, d))
      && (o.result.Ok? ==> o.result.value == d && forall j | 0 <= j <= |d| :: IsDirIn(o.table, d[..j]))
      && (o.result.Err? ==> o.table == m && o.result.error.NotADirectory? && o.result.error.path <= d)
      && (forall p | p in m :: p in o.table && o.table[p] == m[p])
      && (forall p | p in o.table :: p in m || p <= d)
  {
    EnsureFromTable(m, d, 0);
    EnsureFromResult(m, d, 0);
  }

  /** `ensure(dir=True)` on a path whose prefixes are all directories already
      changes nothing. */
  lemma {:induction false} EnsureFromExisting(m: Table, d: Path, i: nat)
    requires i <= |d| + 1
    requires forall j | i <= j <= |d| :: IsDirIn(m, d[..j])
    ensures EnsureFrom(m, d, i) == Outcome(m, Ok(d))
    decreases |d| + 1 - i
  {
    if i <= |d| {
      EnsureFromExisting(m, d, i + 1);
    }
  }

  lemma EnsureExisting(m: Table, d: Path)
    requires forall j | 0 <= j <= |d| :: IsDirIn(m, d[..j])
    ensures Ensure(m, d) == Outcome(m, Ok(d))
  {
    EnsureFromExisting(m, d, 0);
  }

  /** `ensure(dir=True)` on a directory of a tree changes nothing. */
  lemma DirEnsured(m: Table, d: Path)
    requires ValidTable(m) && IsDirIn(m, d)
    ensures Ensure(m, d) == Outcome(m, Ok(d))
  {
    forall j | 0 <= j <= |d| ensures IsDirIn(m, d[..j]) {
      AncestorsAreDirs(m, d, j);
      assert j == |d| ==> d[..j] == d;
    }
    EnsureExisting(m, d);
  }

  /** `d.mkdir()`: one new directory inside an existing directory. */
  function MakeDir(m: Table, d: Path): (o: Outcome)
    ensures ValidTable(m) ==> ValidTable(o.table)
    ensures o.result.Ok? <==> d !in m && IsDirIn(m, Parent(d))
    ensures o.result.Ok? ==> o.result.value == d && o.table == m[d := Dir]
    ensures o.result.Err? ==> o.table == m
  {
    if d in m then Outcome(m, Err(AlreadyExists(d)))
    else if Parent(d) !in m then Outcome(m, Err(NoSuchFile(Parent(d))))
    else if m[Parent(d)] != Dir then Outcome(m, Err(NotADirectory(Parent(d))))
    else Outcome(m[d := Dir], Ok(d))
  }

  /** `mkdir` keeps every directory. */
  lemma MakeDirKeepsDir(m: Table, d: Path, p: Path)
    requires IsDirIn(m, p)
    ensures IsDirIn(MakeDir(m, d).table, p)
  {
  }

  /** `d.mksymlinkto(src)`: `os.symlink` of the absolute source path; the
      link must not exist yet and must go into an existing directory. */
  function MakeSymlink(m: Table, d: Path, src: Path): (o: Outcome)
    ensures ValidTable(m) ==> ValidTable(o.table)
    ensures o.result.Ok? <==> d !in m && IsDirIn(m, Parent(d))
    ensures o.result.Ok? ==> o.result.value == d && o.table == m[d := Link(src)]
    ensures o.result.Err? ==> o.table == m
  {
    if d in m then Outcome(m, Err(AlreadyExists(d)))
    else if Parent(d) !in m then Outcome(m, Err(NoSuchFile(Parent(d))))
    else if m[Parent(d)] != Dir then Outcome(m, Err(NotADirectory(Parent(d))))
    else Outcome(m[d := Link(src)], Ok(d))
  }

  /** Where `src.copy(dst)` writes: into a directory `dst` under the
      source's name, otherwise at `dst` itself. */
  function CopyTarget(m: Table, src: Path, dst: Path): (t: Path)
    ensures !IsDirIn(m, dst) ==> t == dst
    ensures IsDirIn(m, dst) ==> Parent(t) == dst && Basename(t) == Basename(src)
  {
    if IsDirIn(m, dst) then dst + [Basename(src)] else dst
  }

  /** `src.copy(dst)` for a regular file `src`: its bytes are written to the
      target, which may be new or an existing regular file. */
  function CopyFile(m: Table, src: Path, dst: Path): (o: Outcome)
    ensures ValidTable(m) ==> ValidTable(o.table)
    ensures o.result.Ok? ==>
      && src in m && m[src].File?
      && o.result.value == CopyTarget(m, src, dst)
      && o.table == m[CopyTarget(m, src, dst) := m[src]]
    ensures o.result.Err? ==> o.table == m
  {
    if src !in m then Outcome(m, Err(NoSuchFile(src)))
    else if !m[src].File? then Outcome(m, Err(NotModelled(src)))
    else
      var target := CopyTarget(m, src, dst);
      if target == src then Outcome(m, Err(SameFile(src)))
      else if IsDirIn(m, target) then Outcome(m, Err(IsADirectory(target)))
      else if IsLinkIn(m, target) then Outcome(m, Err(NotModelled(target)))
      else if Parent(target) !in m then Outcome(m, Err(NoSuchFile(Parent(target))))
      else if m[Parent(target)] != Dir then Outcome(m, Err(NotADirectory(Parent(target))))
      else Outcome(m[target := m[src]], Ok(target))
  }

  /** The directory a numbered `mktemp(name)` creates for the number `n`:
      `base.join(name + str(n))`. */
  function NumberedPath(base: Path, name: string, n: nat): (r: Path)
    ensures Normal(base) ==> Normal(r)
  {
    JoinPath(base, name + Decimal(n))
  }

  /** A bound on the length of the last component of the paths of `keys`. */
  lemma BasenameBound(keys: set<Path>) returns (bound: nat)
    ensures forall p | p in keys :: |Basename(p)| < bound
  {
    if keys == {} {
      bound := 0;
    } else {
      var p :| p in keys;
      var rest := BasenameBound(keys - {p});
      bound := if rest > |Basename(p)| then rest else |Basename(p)| + 1;
    }
  }

  /** However many directories exist, some number gives a fresh one: a
      number with more digits than any existing last component is long
      enough. */
  lemma FreshNumberExists(m: Table, base: Path, name: string) returns (n: nat)
    ensures NumberedPath(base, name, n) !in m
  {
    var bound := BasenameBound(m.Keys);
    n := Pow10(bound);
    DecimalLength(n, bound);
    JoinDigits(base, name, Decimal(n));
    assert |Basename(NumberedPath(base, name, n))| > bound;
  }

  /** The mutable filesystem. */
  class FileSystem {
    var entries: Table

    ghost predicate Valid()
      reads this
    {
      ValidTable(entries)
    }

    /** An empty filesystem: the root directory only. */
    constructor ()
      ensures Valid() && entries == map[[] := Dir]
    {
      entries := map[[] := Dir];
    }

    /** `p.check(link=1)` */
    predicate IsLink(p: Path)
      reads this
    {
      IsLinkIn(entries, p)
    }

    /** `p.check(dir=1)`, without following links. */
    predicate IsDir(p: Path)
      reads this
    {
      IsDirIn(entries, p)
    }

    /** `d.ensure(dir=True)`, creating the missing prefixes of `d` top down. */
    method EnsureDir(d: Path) returns (r: Result<Path, FsError>)
      requires Valid()
      modifies this
      ensures Valid()
      ensures Outcome(entries, r) == Ensure(old(entries), d)
    {
      EnsureFacts(entries, d);
      var i := 0;
      while i <= |d|
        invariant 0 <= i <= |d| + 1
        invariant EnsureFrom(entries, d, i) == Ensure(old(entries), d)
      {
        var q := d[..i];
        if q !in entries {
          entries := entries[q := Dir];
        } else if entries[q] != Dir {
          return Err(NotADirectory(q));
        }
        i := i + 1;
      }
      return Ok(d);
    }

    /** `d.mkdir()` */
    method Mkdir(d: Path) returns (r: Result<Path, FsError>)
      requires Valid()
      modifies this
      ensures Valid()
      ensures Outcome(entries, r) == MakeDir(old(entries), d)
    {
      var parent := Parent(d);
      if d in entries {
        r := Err(AlreadyExists(d));
      } else if parent !in entries {
        r := Err(NoSuchFile(parent));
      } else if entries[parent] != Dir {
        r := Err(NotADirectory(parent));
      } else {
        entries := entries[d := Dir];
        r := Ok(d);
      }
    }

    /** `d.mksymlinkto(src)` */
    method MkSymlinkTo(d: Path, src: Path) returns (r: Result<Path, FsError>)
      requires Valid()
      modifies this
      ensures Valid()
      ensures Outcome(entries, r) == MakeSymlink(old(entries), d, src)
    {
      var parent := Parent(d);
      if d in entries {
        r := Err(AlreadyExists(d));
      } else if parent !in entries {
        r := Err(NoSuchFile(parent));
      } else if entries[parent] != Dir {
        r := Err(NotADirectory(parent));
      } else {
        entries := entries[d := Link(src)];
        r := Ok(d);
      }
    }

    /** `src.copy(dst)` */
    method Copy(src: Path, dst: Path) returns (r: Result<Path, FsError>)
      requires Valid()
      modifies this
      ensures Valid()
      ensures Outcome(entries, r) == CopyFile(old(entries), src, dst)
    {
      if src !in entries {
        return Err(NoSuchFile(src));
      }
      if !entries[src].File? {
        return Err(NotModelled(src));
      }
      var target := if IsDir(dst) then dst + [Basename(src)] else dst;
      var parent := Parent(target);
      if target == src {
        r := Err(SameFile(src));
      } else if IsDir(target) {
        r := Err(IsADirectory(target));
      } else if IsLink(target) {
        r := Err(NotModelled(target));
      } else if parent !in entries {
        r := Err(NoSuchFile(parent));
      } else if entries[parent] != Dir {
        r := Err(NotADirectory(parent));
      } else {
        entries := entries[target := entries[src]];
        r := Ok(target);
      }
    }
  }

  /** pytest's `tmpdir_factory`: a base temporary directory in a filesystem. */
  class TmpdirFactory {
    const fs: FileSystem
    const base: Path

    ghost predicate Valid()
      reads this, fs
    {
      fs.Valid() && IsDirIn(fs.entries, base)
    }

    constructor (fs: FileSystem, base: Path)
      requires fs.Valid() && IsDirIn(fs.entries, base)
      ensures Valid() && this.fs == fs && this.base == base
    {
      this.fs := fs;
      this.base := base;
    }

    /** `getbasetemp()` */
    function GetBaseTemp(): Path {
      base
    }

    /** `mktemp(name, numbered)`: without numbering, the directory
      `base.join(name)` is made; with numbering, the directory for some
      number whose directory does not exist yet. Which number pytest picks is
      not modelled: `n` is any fresh one. */
    method MkTemp(name: string, numbered: bool) returns (r: Result<Path, FsError>, ghost n: nat)
      requires Valid()
      modifies fs
      ensures Valid()
      ensures !numbered ==> Outcome(fs.entries, r) == MakeDir(old(fs.entries), JoinPath(base, name))
      ensures numbered ==> NumberedPath(base, name, n) !in old(fs.entries)
      ensures numbered ==> Outcome(fs.entries, r) == MakeDir(old(fs.entries), NumberedPath(base, name, n))
    {
      var d := JoinPath(base, name);
      n := 0;
      if numbered {
        ghost var w := FreshNumberExists(fs.entries, base, name);
        var k: nat :| NumberedPath(base, name, k) !in fs.entries;
        n := k;
        d := NumberedPath(base, name, k);
      }
      MakeDirKeepsDir(fs.entries, d, base);
      r := fs.Mkdir(d);
    }
  }
}
