/** pytest_ngsfixtures/wm/snakemake.py: the command line `run` hands to the
    shell. Running it is not part of this model. */
module Snakemake {
  import opened Wrappers
  import opened Strings
  import opened Paths

  /** Python truthiness of `working_dir`: `None` and `""` are false. */
  predicate Truthy(wd: Option<string>) {
    wd.Some? && wd.value != ""
  }

  /** The argument list: `snakemake -s <snakefile> <target> <options...>`,
      behind `cd <working_dir> &&` when a working directory is given. */
  function Arguments(snakefile: PathArg, target: string, options: seq<string>, wd: Option<string>): (a: seq<string>)
    ensures |a| == 4 + |options| + (if Truthy(wd) then 3 else 0)
    ensures a[|a| - |options|..] == options
  {
    var args := ["snakemake", "-s", ArgText(snakefile), target] + options;
    if Truthy(wd) then ["cd", wd.value, "&&"] + args else args
  }

  /** The arguments joined by single spaces, wrapped in `/bin/bash -c '...'`
      when `bash` is set. */
  function Command(snakefile: PathArg, target: string, options: seq<string>, bash: bool, wd: Option<string>): string {
    var cmd := Join(Arguments(snakefile, target, options, wd), " ");
    if bash then "/bin/bash -c '" + cmd + "'" else cmd
  }

  /** `run` with the target converted by `str`, as the snakefile is. */
  function Run(snakefile: PathArg, target: PathArg, options: seq<string>, bash: bool, wd: Option<string>): string {
    Command(snakefile, ArgText(target), options, bash, wd)
  }

  /** `" ".join` raising TypeError for the list item at `index` that is not a
      string. */
  datatype RunError = NotAString(index: nat)

  /** `run` as written: the target is put into the list unconverted, so a
      py.path.local target makes `" ".join` raise. */
  function RunAsWritten(snakefile: PathArg, target: PathArg, options: seq<string>, bash: bool, wd: Option<string>)
    : (r: Result<string, RunError>)
    ensures target.Str? ==> r == Ok(Run(snakefile, target, options, bash, wd))
    ensures target.Local? ==> r.Err?
  {
    match target
    case Local(_) => Err(NotAString(if Truthy(wd) then 6 else 3))
    case Str(t) => Ok(Command(snakefile, t, options, bash, wd))
  }

  /** The command without working directory or bash, as the source spells
      it out: `snakemake -s <snakefile> <target>` and each option after a
      space. */
  function PlainCommand(snakefile: PathArg, target: string, options: seq<string>): string {
    "snakemake -s " + ArgText(snakefile) + " " + target + Prefixed(options, " ")
  }

  /** `cd <wd> && ` for a truthy working directory, nothing otherwise. */
  function CdPrefix(wd: Option<string>): (r: string)
    ensures r == "" <==> !Truthy(wd)
  {
    if Truthy(wd) then "cd " + wd.value + " && " else ""
  }

  /** Without a working directory or bash the joined arguments are the
      plain command. */
  lemma RunPlain(snakefile: PathArg, target: string, options: seq<string>, wd: Option<string>)
    requires !Truthy(wd)
    ensures Command(snakefile, target, options, false, wd) == PlainCommand(snakefile, target, options)
  {
    var a := ArgText(snakefile);
    var head := ["snakemake", "-s", a, target];
    assert Arguments(snakefile, target, options, wd) == head + options;
    JoinAppend(head, options, " ");
    assert ["snakemake", "-s"] == ["snakemake"] + ["-s"];
    assert ["snakemake", "-s", a] == ["snakemake", "-s"] + [a];
    assert head == ["snakemake", "-s", a] + [target];
    JoinSnoc(["snakemake"], "-s", " ");
    assert Join(["snakemake", "-s"], " ") == "snakemake -s";
    JoinSnoc(["snakemake", "-s"], a, " ");
    assert "snakemake -s" + " " == "snakemake -s ";
    var j3 := Join(["snakemake", "-s", a], " ");
    assert j3 == "snakemake -s " + a;
    JoinSnoc(["snakemake", "-s", a], target, " ");
    assert Join(head, " ") == j3 + " " + target;
  }

  /** The defaults `target="all"`, `options=[]`: `snakemake -s <snakefile> all`. */
  lemma RunDefaults(snakefile: PathArg)
    ensures Run(snakefile, Str("all"), [], false, None) == "snakemake -s " + ArgText(snakefile) + " all"
  {
    RunPlain(snakefile, "all", [], None);
  }

  /** A non-empty working directory puts `cd <wd> && ` before the command. */
  lemma RunInDirectory(snakefile: PathArg, target: string, options: seq<string>, wd: Option<string>)
    requires Truthy(wd)
    ensures Command(snakefile, target, options, false, wd)
      == "cd " + wd.value + " && " + Command(snakefile, target, options, false, None)
  {
    var pre := ["cd", wd.value, "&&"];
    var args := ["snakemake", "-s", ArgText(snakefile), target] + options;
    assert Arguments(snakefile, target, options, wd) == pre + args;
    assert Arguments(snakefile, target, options, None) == args;
    JoinConcat(pre, args, " ");
    assert ["cd", wd.value] == ["cd"] + [wd.value];
    assert pre == ["cd", wd.value] + ["&&"];
    JoinSnoc(["cd"], wd.value, " ");
    assert "cd" + " " == "cd ";
    JoinSnoc(["cd", wd.value], "&&", " ");
    assert Join(pre, " ") == "cd " + wd.value + " " + "&&";
    assert " " + "&&" + " " == " && ";
  }

  /** Without bash the command is the `cd` prefix, if any, followed by the
      plain command. */
  lemma RunUnwrapped(snakefile: PathArg, target: string, options: seq<string>, wd: Option<string>)
    ensures Command(snakefile, target, options, false, wd) == CdPrefix(wd) + PlainCommand(snakefile, target, options)
  {
    if Truthy(wd) {
      RunPlain(snakefile, target, options, None);
      RunInDirectory(snakefile, target, options, wd);
    } else {
      RunPlain(snakefile, target, options, wd);
      assert CdPrefix(wd) == "";
    }
  }

  /** `bash=True` quotes the whole command, `cd` prefix included, inside
      `/bin/bash -c '...'`. */
  lemma RunBash(snakefile: PathArg, target: string, options: seq<string>, wd: Option<string>)
    ensures Command(snakefile, target, options, true, wd)
      == "/bin/bash -c '" + CdPrefix(wd) + PlainCommand(snakefile, target, options) + "'"
  {
    var inner := Command(snakefile, target, options, false, wd);
    RunUnwrapped(snakefile, target, options, wd);
    assert Command(snakefile, target, options, true, wd) == "/bin/bash -c '" + inner + "'";
    Regroup("/bin/bash -c '", CdPrefix(wd), PlainCommand(snakefile, target, options), "'");
  }

  lemma Regroup(a: string, b: string, c: string, d: string)
    ensures a + (b + c) + d == a + b + c + d
  {
  }

  /** Nothing is quoted or escaped: when no argument contains a space,
      splitting the command at spaces gives back the arguments as given. */
  lemma RunTokens(snakefile: PathArg, target: string, options: seq<string>, wd: Option<string>)
    requires ' ' !in ArgText(snakefile) && ' ' !in target
    requires forall i | 0 <= i < |options| :: ' ' !in options[i]
    requires Truthy(wd) ==> ' ' !in wd.value
    ensures Split(Command(snakefile, target, options, false, wd), ' ') == Arguments(snakefile, target, options, wd)
  {
    var a := Arguments(snakefile, target, options, wd);
    forall i | 0 <= i < |a| ensures ' ' !in a[i] {
      var k := |a| - |options|;
      if i >= k {
        assert a[i] == a[k..][i - k];
      }
    }
    SplitJoin(a, ' ');
  }

  /** The docstring of `snakefile_factory` calls `run` with a py.path.local
      target; as written that call fails at the target's place in the
      argument list. */
  lemma PathTargetRejected(snakefile: PathArg, dir: Path)
    ensures RunAsWritten(snakefile, Local(dir + ["output.txt"]), [], false, None) == Err(NotAString(3))
  {
  }

  /** With the target converted by `str`, a py.path.local target behaves as
      the string of its path does in the code as written, and the docstring's
      call gives `snakemake -s <snakefile> <path of the target>`. */
  lemma PathTargetConverted(snakefile: PathArg, dir: Path, options: seq<string>, bash: bool, wd: Option<string>)
    ensures RunAsWritten(snakefile, Str(Text(dir)), options, bash, wd) == Ok(Run(snakefile, Local(dir), options, bash, wd))
    ensures Run(snakefile, Local(dir + ["output.txt"]), [], false, None)
      == "snakemake -s " + ArgText(snakefile) + " " + Text(dir + ["output.txt"])
  {
    RunPlain(snakefile, Text(dir + ["output.txt"]), [], None);
  }
}
