/** pytest_ngsfixtures/factories.py: the argument checks the fixture factories
    make when they are called, before any fixture runs. The layout engines
    and file setup they hand over to are not part of this model. */
module Factories {
  import opened Wrappers
  import opened Paths
  import opened LocalFs
  import opened SafeOs

  /** The assertion a factory call fails with. `MalformedConfig` stands for
      the attribute or key error a configuration of another shape provokes. */
  datatype FactoryError =
    | AliasLengthMismatch(aliases: nat, samples: nat)
    | SrcNotAList
    | DstNotAList
    | NoSuchApplication(application: string)
    | NoSuchCommand(command: string)
    | VersionNotString
    | NoSuchVersion(version: string, application: string)
    | BadEnd(end: string)
    | MalformedConfig

  // -------------------------------------------------------------------
  // sample_layout

  const DefaultAlias: seq<string> := []
  const DefaultSample: seq<Option<string>> := [None]

  /** `sample_layout`'s arity check: a non-empty alias list names every
      sample. */
  function CheckSampleLayout(alias: seq<string>, sample: seq<Option<string>>): (r: Result<(), FactoryError>)
    ensures r.Ok? <==> |alias| == 0 || |alias| == |sample|
    ensures r.Err? ==> r.error == AliasLengthMismatch(|alias|, |sample|)
    ensures alias == DefaultAlias ==> r.Ok?
    ensures sample == DefaultSample ==> (r.Ok? <==> |alias| <= 1)
  {
    if |alias| > 0 && |alias| != |sample| then Err(AliasLengthMismatch(|alias|, |sample|)) else Ok(())
  }

  // -------------------------------------------------------------------
  // fileset

  /** A Python value passed where a list is expected. */
  datatype Arg<T> = NoneValue | List(items: seq<T>) | Other

  /** The sources and destinations `fileset` sets up; a `None` destination
      stands for the source's basename. */
  datatype FilesetArgs = FilesetArgs(src: seq<PathArg>, dst: seq<Option<PathArg>>)

  /** `fileset`'s checks and the defaulting of `dst`. */
  function CheckFileset(src: Arg<PathArg>, dst: Arg<Option<PathArg>>): (r: Result<FilesetArgs, FactoryError>)
    ensures r.Ok? <==> src.List? && !dst.Other?
    ensures !src.List? ==> r == Err(SrcNotAList)
    ensures src.List? && dst.Other? ==> r == Err(DstNotAList)
    ensures r.Ok? ==> r.value.src == src.items
    ensures r.Ok? && dst.NoneValue? ==> r.value.dst == [None]
    ensures r.Ok? && dst.List? ==> r.value.dst == dst.items
  {
    if !src.List? then Err(SrcNotAList)
    else
      match dst
      case Other => Err(DstNotAList)
      case NoneValue => Ok(FilesetArgs(src.items, [None]))
      case List(ds) => Ok(FilesetArgs(src.items, ds))
  }

  // -------------------------------------------------------------------
  // application_output

  /** A value of the application configuration: a list of versions (already
      converted by `str`), or a mapping. */
  datatype Node = Versions(items: seq<string>) | Entries(fields: map<string, Node>)

  /** Application name to its entry: commands and `_versions`. */
  type Config = map<string, Node>

  const VersionsKey := "_versions"
  const DefaultEnd := "pe"

  /** `version` as passed: `type(version) is str` or not. */
  datatype VersionArg = Text(s: string) | NotText

  /** What an accepted `application_output` call hands to its fixture. */
  datatype OutputArgs = OutputArgs(application: string, command: string, version: string, end: string)

  /** The versions list a configuration value gives. */
  function VersionList(v: Node): Result<seq<string>, FactoryError> {
    match v
    case Versions(xs) => Ok(xs)
    case Entries(_) => Err(MalformedConfig)
  }

  /** The versions a command may be asked for: its own `_versions` when it
      has that key, the application's `_versions` otherwise. */
  function AllowedVersions(app: map<string, Node>, command: string): (r: Result<seq<string>, FactoryError>)
    requires command in app
    ensures app[command].Versions? ==> r == Err(MalformedConfig)
    ensures app[command].Entries? && VersionsKey in app[command].fields ==>
      r == VersionList(app[command].fields[VersionsKey])
    ensures app[command].Entries? && VersionsKey !in app[command].fields ==>
      r == (if VersionsKey in app then VersionList(app[VersionsKey]) else Err(MalformedConfig))
  {
    match app[command]
    case Versions(_) => Err(MalformedConfig)
    case Entries(c) =>
      if VersionsKey in c then VersionList(c[VersionsKey])
      else if VersionsKey in app then VersionList(app[VersionsKey])
      else Err(MalformedConfig)
  }

  /** The application is configured and lists the command. */
  predicate CommandKnown(conf: Config, application: string, command: string) {
    application in conf && conf[application].Entries? && command in conf[application].fields
  }

  /** The allowed versions of the command are well formed and list `version`. */
  predicate VersionAllowed(app: map<string, Node>, command: string, version: string)
    requires command in app
  {
    var allowed := AllowedVersions(app, command);
    allowed.Ok? && version in allowed.value
  }

  /** The allowed versions of the command are well formed and do not list `version`. */
  predicate VersionRejected(app: map<string, Node>, command: string, version: string)
    requires command in app
  {
    var allowed := AllowedVersions(app, command);
    allowed.Ok? && version !in allowed.value
  }

  /** The checks of `application_output`, in the order the source makes
      them. */
  function CheckApplicationOutput(conf: Config, application: string, command: string, version: VersionArg, end: string)
    : (r: Result<OutputArgs, FactoryError>)
    ensures application !in conf ==> r == Err(NoSuchApplication(application))
    ensures application in conf && conf[application].Entries? && command !in conf[application].fields ==>
      r == Err(NoSuchCommand(command))
    ensures r.Ok? ==>
      && application in conf && conf[application].Entries?
      && command in conf[application].fields
      && version.Text?
      && (var allowed := AllowedVersions(conf[application].fields, command);
          allowed.Ok? && version.s in allowed.value)
      && (end == "se" || end == "pe")
      && r.value == OutputArgs(application, command, version.s, end)
    ensures (CommandKnown(conf, application, command) && version.NotText?) ==> r == Err(VersionNotString)
    ensures (CommandKnown(conf, application, command) && version.Text? &&
             VersionRejected(conf[application].fields, command, version.s)) ==>
      r == Err(NoSuchVersion(version.s, application))
    ensures (CommandKnown(conf, application, command) && version.Text? &&
             VersionAllowed(conf[application].fields, command, version.s) && (end == "se" || end == "pe")) ==>
      r == Ok(OutputArgs(application, command, version.s, end))
    ensures r.Err? && r.error.BadEnd? ==> end != "se" && end != "pe"
    ensures end == DefaultEnd && r.Err? ==> !r.error.BadEnd?
  {
    if application !in conf then Err(NoSuchApplication(application))
    else match conf[application]
      case Versions(_) => Err(MalformedConfig)
      case Entries(app) =>
        if command !in app then Err(NoSuchCommand(command))
        else if version.NotText? then Err(VersionNotString)
        else
          var allowed := AllowedVersions(app, command);
          if allowed.Err? then Err(allowed.error)
          else if version.s !in allowed.value then Err(NoSuchVersion(version.s, application))
          else if end != "se" && end != "pe" then Err(BadEnd(end))
          else Ok(OutputArgs(application, command, version.s, end))
  }

  /** A command with its own `_versions` accepts exactly those versions,
      whatever the application lists, for either accepted `end`. */
  lemma CommandVersionsOverride(conf: Config, application: string, command: string, version: string, vs: seq<string>, end: string)
    requires application in conf && conf[application].Entries?
    requires command in conf[application].fields && conf[application].fields[command].Entries?
    requires VersionsKey in conf[application].fields[command].fields
    requires conf[application].fields[command].fields[VersionsKey] == Versions(vs)
    ensures (end == "se" || end == "pe") ==>
      (CheckApplicationOutput(conf, application, command, Text(version), end).Ok? <==> version in vs)
    ensures version !in vs ==>
      CheckApplicationOutput(conf, application, command, Text(version), end)
        == Err(NoSuchVersion(version, application))
  {
    assert AllowedVersions(conf[application].fields, command) == Ok(vs);
  }

  /** A command without `_versions` accepts exactly the application's
      versions, for either accepted `end`. */
  lemma ApplicationVersionsFallback(conf: Config, application: string, command: string, version: string, us: seq<string>, end: string)
    requires application in conf && conf[application].Entries?
    requires command in conf[application].fields && conf[application].fields[command].Entries?
    requires VersionsKey !in conf[application].fields[command].fields
    requires VersionsKey in conf[application].fields && conf[application].fields[VersionsKey] == Versions(us)
    ensures (end == "se" || end == "pe") ==>
      (CheckApplicationOutput(conf, application, command, Text(version), end).Ok? <==> version in us)
    ensures version !in us ==>
      CheckApplicationOutput(conf, application, command, Text(version), end)
        == Err(NoSuchVersion(version, application))
  {
    assert AllowedVersions(conf[application].fields, command) == Ok(us);
  }

  /** Why setting up an application output failed: the factory call was
      rejected, or making its directory failed. */
  datatype Failure = Rejected(reason: FactoryError) | Failed(error: FsError)

  function Lift(r: Result<Path, FsError>): Result<Path, Failure> {
    match r
    case Ok(p) => Ok(p)
    case Err(e) => Err(Failed(e))
  }

  /** `application_output` followed by its fixture's `safe_mktemp(fdir)`: a
      rejected call makes no directory. */
  method ApplicationOutputDir(factory: TmpdirFactory, conf: Config, application: string, command: string,
                              version: VersionArg, end: string, fdir: Option<string>, numbered: bool)
    returns (r: Result<Path, Failure>)
    requires factory.Valid()
    modifies factory.fs
    ensures factory.Valid()
    ensures var c := CheckApplicationOutput(conf, application, command, version, end);
      c.Err? ==> r == Err(Rejected(c.error)) && factory.fs.entries == old(factory.fs.entries)
    ensures var c := CheckApplicationOutput(conf, application, command, version, end);
      c.Ok? ==> r.Err? ==> r.error.Failed?
    ensures var c := CheckApplicationOutput(conf, application, command, version, end);
      c.Ok? && fdir.None? ==> r == Ok(factory.base) && factory.fs.entries == old(factory.fs.entries)
    ensures var c := CheckApplicationOutput(conf, application, command, version, end);
      c.Ok? && fdir.Some? && !numbered ==>
        var o := FixedTemp(old(factory.fs.entries), factory.base, fdir.value);
        factory.fs.entries == o.table && r == Lift(o.result)
    ensures var c := CheckApplicationOutput(conf, application, command, version, end);
      c.Ok? && fdir.Some? && numbered ==>
        exists n: nat :: FreshNumber(old(factory.fs.entries), factory.base, fdir.value, n)
          && var o := NumberedTemp(old(factory.fs.entries), factory.base, fdir.value, n);
             factory.fs.entries == o.table && r == Lift(o.result)
  {
    var c := CheckApplicationOutput(conf, application, command, version, end);
    if c.Err? {
      return Err(Rejected(c.error));
    }
    var p := SafeMkTemp(factory, fdir, numbered);
    r := Lift(p);
  }
}
