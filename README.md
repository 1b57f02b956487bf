# pytest-ngsfixtures: safe file setup, factory checks and the snakemake command line

This project models three parts of pytest-ngsfixtures in Dafny and proves
what they promise.

- **`os.py`.** These helpers lay out fixture files in a temporary directory.
  - `safe_symlink` and `safe_copy` first resolve where the file comes from and where it goes.
  - They skip a destination that is already a symbolic link.
  - Otherwise they create the destination's parent directories and then link or copy.
  - `safe_mktemp` returns pytest's base temporary directory, or a directory below it that is reused or created, or a freshly numbered one.
- **`factories.py`.** These are the checks the fixture factories make when called: the alias/sample arity check of `sample_layout`, the list checks and `dst` defaulting of `fileset`, and the configuration lookup of `application_output`.
- **`wm/snakemake.py`.** This is the command line that `run` builds for the shell.

The filesystem is a table from absolute paths to entries.
- A path is a sequence of components, starting from the root.
- An entry is a directory, a regular file with opaque contents, or a symbolic link holding the absolute path it points to.

A valid table is a tree: the root is a directory, and every entry lies in a directory.

The filesystem operations the source calls are modelled on the table:
- `ensure(dir=True)`, `mkdir`, `mksymlinkto` and `copy` are specification functions (`Ensure`, `MakeDir`, `MakeSymlink`, `CopyFile`) from the old table to an `Outcome`: the new table plus the returned path or the raised error.
- `check(link=1)` and `check(dir=1)` are the predicates `IsLinkIn` and `IsDirIn` on the table.
- `getbasetemp()` is the factory's fixed base directory.
- `mktemp` is `MakeDir` of `base.join(name)`, or of the numbered path of some number whose directory does not exist yet.

The class `LocalFs.FileSystem` carries the table as its mutable field `entries`. The class `LocalFs.TmpdirFactory` holds a `FileSystem` and the fixed base directory. The methods `SafeSymlink`, `SafeCopy` and `SafeMkTemp` follow the source step by step through those classes. Each method is proved to end in the state its specification function gives. The properties are proved as lemmas about those functions.

Path strings follow POSIX path rules:
- `p.join(s)` splits `s` at `/` and normalises: empty and `.` components are dropped, and `..` goes up one level.
- `str(p)` writes `/` followed by the components joined with `/`.
- `os.path.dirname` is modelled as Python's `posixpath.dirname` computes it: everything up to the last `/`, with trailing slashes removed unless only slashes remain.

The skip test looks only for a symbolic link (os.py:30, 62):
- `safe_symlink` onto an existing file or directory fails with `AlreadyExists`.
- `safe_copy` overwrites an existing regular file.

Modules: `Wrappers` (Option, Result), `Strings` (`str.split`, `str.join`, `rfind`, `rstrip`, `str(n)`), `Paths`, `LocalFs`, `SafeOs`, `Factories`, `Snakemake`.

## Model

| member | source | states |
|---|---|---|
| Strings.Split | pytest_ngsfixtures/os.py:29 | `str.split` at one separator returns at least one field; `SplitFields`, `SplitJoin` and `JoinSplit` give its meaning |
| Strings.Join | pytest_ngsfixtures/wm/snakemake.py:80 | definition of `sep.join`: the elements with `sep` between neighbours; no ensures of its own, its meaning is given by `SplitJoin`, `JoinSplit`, `JoinAppend` and `JoinConcat` |
| Strings.JoinAppend | pytest_ngsfixtures/wm/snakemake.py:76-80 | joining a non-empty list with more elements appended adds each new element after a separator |
| Strings.SplitFields | pytest_ngsfixtures/os.py:29 | no field that `str.split` returns contains the separator |
| Strings.SplitJoin | pytest_ngsfixtures/wm/snakemake.py:80 | joining a non-empty list of separator-free fields and splitting the result gives the list back |
| Strings.JoinSplit | pytest_ngsfixtures/os.py:29 | splitting a string and joining the fields with the separator gives the string back |
| Strings.JoinConcat | pytest_ngsfixtures/wm/snakemake.py:79-80 | `" ".join(a + b)` of two non-empty lists is the two joins with one separator between them |
| Strings.RFind | pytest_ngsfixtures/os.py:75 | `rfind` returns -1 or an index holding the character, and no later index holds it |
| Strings.RStrip | pytest_ngsfixtures/os.py:75 | `rstrip` returns a prefix that does not end in the character, and only that character was removed |
| Strings.Decimal | pytest_ngsfixtures/os.py:77 | `str(n)` of a natural number is a non-empty string of digits |
| Strings.DecimalLength | pytest_ngsfixtures/os.py:77 | a number at least `10^k` has more than `k` digits |
| Paths.Parent | pytest_ngsfixtures/os.py:31 | definition of `p.dirpath()`: the path without its last component, the root for the root; no ensures, `ParentBasename` relates it to `basename` |
| Paths.Basename | pytest_ngsfixtures/os.py:27 | `p.basename` of a normalised path other than the root is a plain name |
| Paths.ParentBasename | pytest_ngsfixtures/os.py:31 | a path other than the root is its `dirpath()` followed by its `basename` |
| Paths.IsAbs | pytest_ngsfixtures/os.py:23 | definition of `os.path.isabs` on POSIX: the string starts with `/`; `ResolveAbsoluteSource` and `ResolveRelativeSource` use it |
| Paths.ArgText | pytest_ngsfixtures/wm/snakemake.py:76 | `str(a)` of a string is the string itself, and of a path object an absolute path string |
| Paths.Normalize | pytest_ngsfixtures/os.py:25 | normalising an absolute path by components that contain no `/` gives a path of plain names only |
| Paths.JoinNested | pytest_ngsfixtures/os.py:28-29 | joining `"a/b/c"` below `p` gives `p` followed by `a`, `b`, `c`, nested components included |
| Paths.TextRoundTrip | pytest_ngsfixtures/os.py:22-25 | `str(p)` of a path is absolute, and reading it back as a path gives `p` again |
| Paths.JoinNestedDigits | pytest_ngsfixtures/os.py:76-77 | `base.join("a/b" + digits)` is `base/a/b<digits>`: the number is appended to the last component |
| Paths.JoinPath | pytest_ngsfixtures/os.py:29 | `p.join(s)` of a normalised path is normalised |
| Paths.Text | pytest_ngsfixtures/os.py:22-25 | `str(p)` is an absolute path string; `TextRoundTrip` shows it reads back as `p` |
| Paths.DirName | pytest_ngsfixtures/os.py:75 | `os.path.dirname(s)` is a prefix of `s`, and it is empty exactly when `s` has no `/` |
| Paths.NormalizeConcat | pytest_ngsfixtures/os.py:29 | normalising two runs of components one after the other is normalising their concatenation |
| Paths.NormalizePlain | pytest_ngsfixtures/os.py:29 | components that are plain names are appended unchanged |
| Paths.JoinSelf | pytest_ngsfixtures/os.py:75 | `p.join("")` and `p.join(".")` are `p` |
| Paths.JoinDigits | pytest_ngsfixtures/os.py:77 | joining `s` followed by digits appends the digits to the last field of `s` |
| LocalFs.EnsureFrom | pytest_ngsfixtures/os.py:31 | `ensure(dir=True)` from one prefix on: a success returns the path, and a failure is `NotADirectory` of some prefix of it |
| LocalFs.EnsureFromErrNamesBlocker | pytest_ngsfixtures/os.py:31 | the prefix a failing `ensure(dir=True)` names exists in the original table and is not a directory |
| LocalFs.EnsureFromKeeps | pytest_ngsfixtures/os.py:31 | `ensure(dir=True)` keeps every existing entry and adds only prefixes of the path, in any table |
| LocalFs.Ensure | pytest_ngsfixtures/os.py:63 | `d.ensure(dir=True)` in any table: a success returns `d`; a failure names a prefix of `d` that exists and is not a directory; existing entries are kept, and only prefixes of `d` are added |
| LocalFs.CopyTarget | pytest_ngsfixtures/os.py:32 | `copy` writes to the destination itself, or into a destination directory under the source's basename |
| LocalFs.IsLinkIn | pytest_ngsfixtures/os.py:30 | definition of `check(link=1)`: the path's own entry is a symbolic link; no ensures, `Symlinked` and `Copied` state the skip it decides |
| LocalFs.IsDirIn | pytest_ngsfixtures/os.py:80 | definition of `check(dir=1)`: the path's own entry is a directory; no ensures, `FixedTempResult` and `DirEnsured` use it |
| LocalFs.NumberedPath | pytest_ngsfixtures/os.py:77 | the directory a numbered `mktemp(name)` makes for the number `n`, `base.join(name + str(n))`, is normalised when `base` is |
| LocalFs.AncestorsAreDirs | pytest_ngsfixtures/os.py:31 | in a tree every proper ancestor of an existing entry is a directory |
| LocalFs.EnsureFacts | pytest_ngsfixtures/os.py:31 | `ensure(dir=True)` fails exactly when a prefix of the path exists and is not a directory, and then changes nothing; otherwise it returns the path, makes every prefix a directory, keeps every existing entry and adds only prefixes of the path |
| LocalFs.EnsureExisting | pytest_ngsfixtures/os.py:63 | `ensure(dir=True)` on a path whose prefixes are all directories changes nothing |
| LocalFs.DirEnsured | pytest_ngsfixtures/os.py:75 | `ensure(dir=True)` on an existing directory of a tree returns it and changes nothing |
| LocalFs.MakeDir | pytest_ngsfixtures/os.py:81 | `mkdir` succeeds exactly when the path is free and its parent is a directory, then adds only that directory; on failure nothing changes; the tree stays a tree |
| LocalFs.MakeSymlink | pytest_ngsfixtures/os.py:64 | `mksymlinkto` succeeds exactly when the link's place is free and its parent is a directory, then adds only the link to the source; on failure nothing changes |
| LocalFs.CopyFile | pytest_ngsfixtures/os.py:32 | `copy` succeeds only from a regular file, writes exactly the source's bytes at the target (inside a destination directory under the source's name) and changes nothing else; on failure nothing changes |
| LocalFs.BasenameBound | pytest_ngsfixtures/os.py:77 | every finite set of paths has a bound on the length of their last components |
| LocalFs.FreshNumberExists | pytest_ngsfixtures/os.py:77 | for every table some number gives a numbered directory name that does not exist yet |
| LocalFs.FileSystem.EnsureDir | pytest_ngsfixtures/os.py:63 | the loop over the prefixes ends in the state and result `ensure(dir=True)` specifies |
| LocalFs.FileSystem.Mkdir | pytest_ngsfixtures/os.py:81 | ends in the state and result `mkdir` specifies |
| LocalFs.FileSystem.MkSymlinkTo | pytest_ngsfixtures/os.py:64 | ends in the state and result `mksymlinkto` specifies |
| LocalFs.FileSystem.Copy | pytest_ngsfixtures/os.py:32 | ends in the state and result `copy` specifies |
| LocalFs.TmpdirFactory.MkTemp | pytest_ngsfixtures/os.py:76-81 | without numbering makes `base/name`; with numbering makes the directory of a number whose directory did not exist |
| SafeOs.ResolveSrc | pytest_ngsfixtures/os.py:22-25 | a path-object source is kept as it is, and a string source below a normalised data directory resolves to a normalised path |
| SafeOs.ResolveDst | pytest_ngsfixtures/os.py:26-29 | a path-object destination is kept as it is, and a missing or string destination below a normalised `p` resolves to a normalised path |
| LocalFs.TmpdirFactory.GetBaseTemp | pytest_ngsfixtures/os.py:73 | definition of `getbasetemp()`: the factory's fixed base directory, which no operation changes; no ensures, `SafeMkTemp` states the `dirname=None` result |
| SafeOs.Symlinked | pytest_ngsfixtures/os.py:62-67 | a destination that already is a link is returned and the table is unchanged; a success always returns the destination |
| SafeOs.Copied | pytest_ngsfixtures/os.py:30-35 | a destination that already is a link is returned and the table is unchanged; a success always returns the destination |
| SafeOs.SafeSymlink | pytest_ngsfixtures/os.py:54-67 | resolves source and destination and ends in the state `Symlinked` gives for them |
| SafeOs.SafeCopy | pytest_ngsfixtures/os.py:22-35 | resolves source and destination and ends in the state `Copied` gives for them |
| SafeOs.ResolveRelativeSource | pytest_ngsfixtures/os.py:22-25 | a relative source string `a/b` is not absolute and names `DATADIR/a/b` |
| SafeOs.ResolveAbsoluteSource | pytest_ngsfixtures/os.py:54-57 | an absolute source string names the path it spells, whatever `DATADIR` is |
| SafeOs.ResolveDefaultDestination | pytest_ngsfixtures/os.py:58-61 | without a destination the result is `p/<basename of the source>` |
| SafeOs.ResolveNestedDestination | pytest_ngsfixtures/os.py:26-29 | a destination string `a/b` names `p/a/b` |
| SafeOs.SymlinkSucceeds | pytest_ngsfixtures/os.py:62-64 | `safe_symlink` succeeds exactly when the destination is a link already, or is free and no prefix of its parent is a non-directory |
| SafeOs.NotAddedByEnsure | pytest_ngsfixtures/os.py:63 | ensuring the destination's parent never creates the destination itself |
| SafeOs.SymlinkCreates | pytest_ngsfixtures/os.py:62-64 | a link made by `safe_symlink` points at the resolved source and every ancestor of the destination is a directory, so the link resolves to the source |
| SafeOs.SymlinkFrame | pytest_ngsfixtures/os.py:58-67 | `safe_symlink` keeps the tree a tree, keeps every existing entry and adds only the destination and its ancestors |
| SafeOs.SymlinkIdempotent | pytest_ngsfixtures/os.py:62-67 | after a successful `safe_symlink` the same call changes nothing and returns the same destination |
| SafeOs.CopyWritesContent | pytest_ngsfixtures/os.py:30-32 | into a free place or over a regular file, `safe_copy` returns the destination, the target holds exactly the source's bytes and every ancestor of the destination is a directory |
| SafeOs.ParentEnsured | pytest_ngsfixtures/os.py:31 | when no prefix of the parent is a non-directory, ensuring the parent succeeds, keeps a tree and every entry, adds nothing as long as the destination, and makes every ancestor of the destination a directory |
| SafeOs.CopyOverwritesFile | pytest_ngsfixtures/os.py:30-32 | copying over an existing regular file replaces its bytes and nothing else |
| SafeOs.CopyFrame | pytest_ngsfixtures/os.py:26-35 | `safe_copy` keeps the tree a tree, changes no existing entry other than the copy target and adds only the target and ancestors of the destination |
| SafeOs.CopyRepeat | pytest_ngsfixtures/os.py:30-35 | repeating a successful `safe_copy` gives the same table and result |
| SafeOs.CopyFileRepeat | pytest_ngsfixtures/os.py:32 | a second `copy` right after a successful one changes nothing and returns the same |
| SafeOs.FixedTemp | pytest_ngsfixtures/os.py:75-81 | `safe_mktemp` without numbering: a success returns `base.join(name)`, and every existing entry is kept |
| SafeOs.NumberedTemp | pytest_ngsfixtures/os.py:75-77 | `safe_mktemp` with numbering for the number `n`: a success returns the numbered path, `n` was fresh, and every existing entry is kept |
| SafeOs.FreshNumber | pytest_ngsfixtures/os.py:77 | a number the factory may pick: its directory is absent even after the directory part of the name is ensured, so it was absent before |
| SafeOs.SafeMkTemp | pytest_ngsfixtures/os.py:70-82 | without a name returns the base directory and changes nothing; without numbering ends as `FixedTemp`; with numbering ends as `NumberedTemp` for a number that was fresh |
| SafeOs.FixedTempResult | pytest_ngsfixtures/os.py:75-82 | without numbering a success returns `base/name`, a directory afterwards, and every prefix of `base/dirname(name)` is a directory; existing entries are kept, and only prefixes of `base/dirname(name)` and `base/name` itself are added |
| SafeOs.FixedTempRepeat | pytest_ngsfixtures/os.py:78-82 | repeating a successful `safe_mktemp` without numbering returns the same path and changes nothing |
| SafeOs.FixedTempPlainName | tests/test_pytest_factories.py:34-35 | `safe_mktemp(f, "foo")` is `base/foo`, reused when it is a directory and created when it is missing |
| SafeOs.FixedTempCurrentDir | tests/test_pytest_factories.py:38-39 | `safe_mktemp(f, ".")` is the base directory and changes nothing |
| SafeOs.NumberedTempResult | pytest_ngsfixtures/os.py:75-77 | with numbering a success returns the numbered path, which did not exist before and is a directory afterwards; existing entries are kept, and only prefixes of `base/dirname(name)` and the numbered directory are added |
| Factories.CheckSampleLayout | pytest_ngsfixtures/factories.py:85-86 | accepted exactly when `alias` is empty or as long as `sample`, so the defaults pass; with the default `sample=[None]` at most one alias is accepted; a rejection reports both lengths |
| Factories.CheckFileset | pytest_ngsfixtures/factories.py:233-236 | accepted exactly when `src` is a list and `dst` is `None` or a list; `src` is checked first; `dst=None` becomes `[None]`, a list `dst` is kept |
| Factories.AllowedVersions | pytest_ngsfixtures/factories.py:295-298 | the command's `_versions` when it has that key, else the application's |
| Factories.CheckApplicationOutput | pytest_ngsfixtures/factories.py:290-300 | a missing application and then a missing command are reported as such, then a version that is not a string, then a version not in the allowed list; a call is accepted exactly when the application and command exist, the version is a string listed in the allowed versions and `end` is `se` or `pe`; the default `end` never fails |
| Factories.CommandVersionsOverride | pytest_ngsfixtures/factories.py:295-300 | a command with its own `_versions` accepts, for `end` of `se` or `pe`, exactly those versions whatever the application lists, and any other version is reported as not available |
| Factories.ApplicationVersionsFallback | pytest_ngsfixtures/factories.py:297-300 | a command without `_versions` accepts, for `end` of `se` or `pe`, exactly the application's versions, and any other version is reported as not available |
| Factories.ApplicationOutputDir | pytest_ngsfixtures/factories.py:290-304 | a rejected `application_output` call never reaches `safe_mktemp` and leaves the filesystem unchanged; an accepted one ends as `safe_mktemp` specifies |
| Snakemake.Arguments | pytest_ngsfixtures/wm/snakemake.py:76-79 | the options come last and in order, after four arguments and an optional three-word `cd` prefix |
| Snakemake.Truthy | pytest_ngsfixtures/wm/snakemake.py:78 | definition of `if working_dir:`: `None` and `""` are false, any other string true; no ensures, `CdPrefix`, `RunPlain` and `RunInDirectory` state its effect |
| Snakemake.CdPrefix | pytest_ngsfixtures/wm/snakemake.py:78-79 | the `cd <wd> && ` prefix is empty exactly when `working_dir` is `None` or `""` |
| Snakemake.PlainCommand | pytest_ngsfixtures/wm/snakemake.py:76 | closed form of the joined list without prefix: `snakemake -s <snakefile> <target>` and each option after a space; no ensures of its own, `RunUnwrapped` and `RunBash` prove `Command` equal to it |
| Snakemake.Command | pytest_ngsfixtures/wm/snakemake.py:76-82 | definition of the command line; no ensures of its own, its closed forms are proved by `RunUnwrapped` and `RunBash` |
| Snakemake.Run | pytest_ngsfixtures/wm/snakemake.py:76-82 | the corrected `run`, which converts the target with `str`; no ensures of its own, `RunAsWritten` and `PathTargetConverted` relate it to the code as written |
| Snakemake.RunAsWritten | pytest_ngsfixtures/wm/snakemake.py:76-80 | as written a string target gives the corrected command, and a py.path.local target raises |
| Snakemake.RunPlain | pytest_ngsfixtures/wm/snakemake.py:76-80 | when `working_dir` is `None` or `""` and there is no bash, the command is `snakemake -s <snakefile> <target>` followed by each option after one space |
| Snakemake.RunDefaults | pytest_ngsfixtures/wm/snakemake.py:74-80 | the defaults give exactly `snakemake -s <snakefile> all` |
| Snakemake.RunInDirectory | pytest_ngsfixtures/wm/snakemake.py:78-80 | a non-empty working directory puts `cd <wd> && ` in front of the command |
| Snakemake.RunUnwrapped | pytest_ngsfixtures/wm/snakemake.py:76-80 | without bash the command is the `cd` prefix followed by the plain command, and the prefix is empty for `None` or `""` |
| Snakemake.RunBash | pytest_ngsfixtures/wm/snakemake.py:78-82 | `bash=True` gives `/bin/bash -c '<cd prefix><plain command>'`, with the `cd` prefix inside the quotes |
| Snakemake.RunTokens | pytest_ngsfixtures/wm/snakemake.py:76-80 | nothing is quoted or escaped: without spaces in the arguments, splitting the command at spaces gives the arguments back in order |
| Snakemake.PathTargetRejected | pytest_ngsfixtures/wm/snakemake.py:39 | as written the docstring's call with a py.path.local target raises at item 3 of the argument list |
| Snakemake.PathTargetConverted | pytest_ngsfixtures/wm/snakemake.py:76 | with `str` applied to the target, a py.path.local target gives what its path string gives, and the docstring's call gives `snakemake -s <snakefile> <path of the target>` |

## Left out

- `DATADIR` and `logger` are used by os.py but neither is defined or imported there. As written, a relative string source raises `NameError` on `DATADIR` (os.py:24, 56), and the skip branch raises `NameError` on `logger` (os.py:34, 66). So a second `safe_symlink` or `safe_copy` onto an existing link fails in the code as written instead of returning the link. The model takes both names as defined: `DATADIR` is the parameter `dataDir`, and the warning is not modelled. `SafeOs.Symlinked`, `SafeOs.Copied`, `SafeOs.SymlinkIdempotent` and the skip cases of the lemmas describe the code with a defined `logger`.
- Symbolic links are not followed. A path that runs through a link counts as obstructed (`NotADirectory`). Copying from or onto a link is reported as `NotModelled`. `check(dir=1)` looks at the entry itself.
- `copy` of a directory tree, and file permissions and modes, are not modelled. Copying a directory is reported as `NotModelled`.
- `LocalFs.TmpdirFactory.MkTemp`: which number pytest chooses is not modelled. The model picks some number whose directory does not exist. For a name without `/`, py.path picks one more than the highest number among the base directory's entries, so the test's expectation `foo0` for a first call is not derived. For a name with `/` such as `foo/bar`, py.path looks only at the basenames of the base directory's own entries, so it tries `foo/bar0` every time and a second numbered call raises `EEXIST`. The model's fresh number always succeeds there, so that failure is not captured. Pytest's validation of `mktemp` names, its lock files and its cleanup of old numbered directories are also left out.
- `LocalFs.Ensure`: when `ensure(dir=True)` meets a prefix that is not a directory, py.path's `mkdir` on that prefix raises `EEXIST`. The model reports it as `NotADirectory`, with the same path and an unchanged table. py.path's own code is not part of this model.
- A path string starting with exactly two slashes keeps them under POSIX `normpath`. The model treats it like one slash.
- `working_dir` and `options` of snakemake `run` are taken as strings. Passing a py.path.local there raises in `" ".join` just as a path target does. The model does not cover this.
- Running the command through `shell()` is not modelled, and neither is `snakefile_factory` (its `inspect.stack()` lookup and file setup).
- The following are not modelled:
  - the layout engines and file setup that the factories hand over to (`setup_sample_layout`, `setup_fileset`, `ApplicationOutputFixture`), which are not part of this model;
  - fixture registration, scopes, `request.config` options, the `size` handling and the logging of fixture contents.
- `Factories.AllowedVersions`: a `_versions` value that is a mapping is reported as `MalformedConfig`. Python would iterate over its keys instead. The layout of the configuration file is not part of this model.
- `str(x)` of the configured versions is taken as already applied, and the contents of `application_config()` are an input.

## Findings

| source | as written | input that shows it | evidently intended | confidence | as-written member | corrected member |
|---|---|---|---|---|---|---|
| pytest_ngsfixtures/wm/snakemake.py:76 | `target` goes into the argument list unconverted, while `snakefile` is passed through `str` | `run(snakefile2, target=flat.join("output.txt"))` as in the docstring at snakemake.py:39: `" ".join` raises TypeError for item 3 | convert the target with `str` like the snakefile, giving `snakemake -s <snakefile> <path of the target>` | not executed | Snakemake.RunAsWritten, Snakemake.PathTargetRejected | Snakemake.Run, Snakemake.PathTargetConverted |
