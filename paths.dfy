/** Absolute paths as lists of components, and the py.path.local / posixpath
    operations on them that the core uses: `join`, `dirpath`, `basename`,
    `str()`, `os.path.isabs` and `os.path.dirname`. */
module Paths {
  import opened Strings

  /** An absolute path: the components below the root `/`, root being `[]`. */
  type Path = seq<string>

  /** A component that normalisation keeps as it is. */
  predicate PlainName(c: string) {
    c != "" && c != "." && c != ".." && '/' !in c
  }

  /** A normalised path, as every py.path.local object holds. */
  predicate Normal(p: Path) {
    forall i | 0 <= i < |p| :: PlainName(p[i])
  }

  /** `p.dirpath()`: the parent directory; the root is its own parent. */
  function Parent(p: Path): Path {
    if p == [] then [] else p[..|p| - 1]
  }

  /** `p.basename`: the last component, empty for the root. */
  function Basename(p: Path): (b: string)
    ensures Normal(p) && p != [] ==> PlainName(b)
  {
    if p == [] then "" else p[|p| - 1]
  }

  /** A path other than the root is its `dirpath()` followed by its
      `basename`. */
  lemma ParentBasename(p: Path)
    requires p != []
    ensures Parent(p) + [Basename(p)] == p
  {
  }

  /** One field of posix `normpath` on an absolute path: empty fields and `.`
      vanish, `..` goes up (and stays at the root), a name goes down. */
  function Step(acc: Path, field: string): Path {
    if field == "" || field == "." then acc
    else if field == ".." then Parent(acc)
    else acc + [field]
  }

  /** posix `normpath` of the absolute path `acc` followed by `fields`,
      processed left to right. */
  function Normalize(acc: Path, fields: seq<string>): (r: Path)
    ensures Normal(acc) && (forall i | 0 <= i < |fields| :: '/' !in fields[i]) ==> Normal(r)
    decreases |fields|
  {
    if fields == [] then acc
    else Step(Normalize(acc, fields[..|fields| - 1]), fields[|fields| - 1])
  }

  /** `p.join(s)`: py.path strips the slashes around `s`, appends it to `p`
      with a `/` and normalises the result. */
  function JoinPath(p: Path, s: string): (r: Path)
    ensures Normal(p) ==> Normal(r)
  {
    SplitFields(s, '/');
    Normalize(p, Split(s, '/'))
  }

  /** `os.path.isabs(s)` on POSIX. */
  predicate IsAbs(s: string) {
    |s| > 0 && s[0] == '/'
  }

  /** `str(p)` of a py.path.local. */
  function Text(p: Path): (r: string)
    ensures IsAbs(r)
  {
    "/" + Join(p, "/")
  }

  predicate AllSlashes(s: string) {
    forall i | 0 <= i < |s| :: s[i] == '/'
  }

  /** `os.path.dirname(s)` on POSIX: everything up to the last `/`, with the
      trailing slashes removed unless it consists of slashes only. */
  function DirName(s: string): (r: string)
    ensures |r| <= |s| && r == s[..|r|]
    ensures r == "" <==> '/' !in s
  {
    var head := s[..RFind(s, '/') + 1];
    if head != "" && !AllSlashes(head) then RStrip(head, '/') else head
  }

  /** The arguments os.py accepts for a path: a string or a py.path.local. */
  datatype PathArg = Str(s: string) | Local(path: Path)

  /** `str(a)` */
  function ArgText(a: PathArg): (r: string)
    ensures a.Str? ==> r == a.s
    ensures a.Local? ==> IsAbs(r)
  {
    match a
    case Str(s) => s
    case Local(p) => Text(p)
  }

  /** `p.join("")` and `p.join(".")` are `p`. */
  lemma JoinSelf(p: Path)
    ensures JoinPath(p, "") == p
    ensures JoinPath(p, ".") == p
  {
    assert Split(".", '/') == ["."] by {
      assert "."[..0] == "";
      assert Split("."[..0], '/') == [""];
      assert "" + ['.'] == ".";
    }
    assert Normalize(p, ["."]) == Step(Normalize(p, []), ".");
  }

  /** Normalising in two pieces is normalising the whole. */
  lemma {:induction false} NormalizeConcat(acc: Path, xs: seq<string>, ys: seq<string>)
    ensures Normalize(acc, xs + ys) == Normalize(Normalize(acc, xs), ys)
    decreases |ys|
  {
    if ys == [] {
      assert xs + ys == xs;
    } else {
      var ys' := ys[..|ys| - 1];
      NormalizeConcat(acc, xs, ys');
      assert (xs + ys)[..|xs + ys| - 1] == xs + ys';
    }
  }

  /** Plain components are appended unchanged. */
  lemma {:induction false} NormalizePlain(acc: Path, cs: seq<string>)
    requires Normal(cs)
    ensures Normalize(acc, cs) == acc + cs
    decreases |cs|
  {
    if cs == [] {
      assert acc + cs == acc;
    } else {
      var cs' := cs[..|cs| - 1];
      NormalizePlain(acc, cs');
      assert acc + cs == (acc + cs') + [cs[|cs| - 1]];
    }
  }

  /** Joining a relative path written as `a/b/c` puts its components below `p`. */
  lemma JoinNested(p: Path, cs: seq<string>)
    requires Normal(cs)
    ensures JoinPath(p, Join(cs, "/")) == p + cs
  {
    if cs == [] {
      assert Split("", '/') == [""];
      assert Normalize(p, [""]) == Step(Normalize(p, []), "");
    } else {
      SplitJoin(cs, '/');
      NormalizePlain(p, cs);
    }
  }

  /** `str()` of a path, read back as an absolute string, is the same path. */
  lemma TextRoundTrip(p: Path)
    requires Normal(p)
    ensures IsAbs(Text(p))
    ensures Normalize([], Split(Text(p), '/')) == p
  {
    if p == [] {
      assert Text(p) == "/";
      assert Split("/", '/') == Split([], '/') + [""];
      assert Normalize([], ["", ""]) == Step(Normalize([], [""]), "");
      assert Normalize([], [""]) == Step(Normalize([], []), "");
    } else {
      JoinConcat([""], p, "/");
      assert Text(p) == Join([""] + p, "/");
      SplitJoin([""] + p, '/');
      NormalizeConcat([], [""], p);
      assert Normalize([], [""]) == Step(Normalize([], []), "");
      NormalizePlain([], p);
    }
  }

  /** Appending digits to `s` extends the last component of `p.join(s)`. */
  lemma JoinDigits(p: Path, s: string, t: string)
    requires t != [] && IsDigits(t)
    ensures var f := Split(s, '/');
      JoinPath(p, s + t) == Normalize(p, f[..|f| - 1]) + [f[|f| - 1] + t]
  {
    var f := Split(s, '/');
    var last := f[|f| - 1] + t;
    assert '/' !in t;
    SplitAppend(s, t, '/');
    var g := f[..|f| - 1] + [last];
    assert g[..|g| - 1] == f[..|f| - 1];
    assert last[|last| - 1] == t[|t| - 1];
    assert PlainName(last) by {
      SplitFields(s, '/');
      assert '/' !in f[|f| - 1];
      assert last != "." && last != ".." by {
        assert '0' <= last[|last| - 1] <= '9';
      }
    }
  }

  /** `p.join("a/b" + digits)` is `p/a/(b + digits)`. */
  lemma JoinNestedDigits(p: Path, cs: seq<string>, t: string)
    requires Normal(cs) && cs != []
    requires t != [] && IsDigits(t)
    ensures JoinPath(p, Join(cs, "/") + t) == p + cs[..|cs| - 1] + [cs[|cs| - 1] + t]
  {
    SplitJoin(cs, '/');
    JoinDigits(p, Join(cs, "/"), t);
    NormalizePlain(p, cs[..|cs| - 1]);
  }
}
