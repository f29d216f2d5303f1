/**
 * The top-level `if/else` chain of cli.js (the part after the banner): from the parsed
 * flags and files, what the two version providers report, and what the filesystem
 * reports about a path argument, decide the single thing the run does.
 */
module Dispatch {
  import opened Wrappers
  import opened CheckFile

  /** The flags and positional files as the flag parser hands them over. */
  datatype Invocation = Invocation(
    update: bool,
    list: bool,
    help: bool,
    check: bool,
    version: Option<string>,   // `-v <value>`; None when the flag is absent
    files: seq<string>)

  /**
   * What the platform's file-association lookup reports: an error, or the command
   * that opens project files (`output.cmd`; None when `output` is null).
   */
  datatype Association = Association(err: Option<string>, cmd: Option<string>)

  /** The `output` object of the installed-version discovery; a missing property is None. */
  datatype CatalogOutput = CatalogOutput(
    versions: Option<seq<string>>,
    modelers: Option<map<string, string>>)

  /** What the installed-version discovery reports: an error and/or an output object. */
  datatype Catalog = Catalog(err: Option<string>, output: Option<CatalogOutput>)

  /** The one outcome of a run. */
  datatype Action =
    | Error(message: string, exitCode: int)              // printed; exit code as cli.js leaves it
    | UpdateCheck                                        // hand over to the update notifier
    | List(lines: seq<string>)                           // print the discovered versions
    | ListNothing                                        // list mode with an incomplete catalog: nothing printed
    | Help                                               // print the usage text, exit 0
    | RunWithVersion(modelerPath: string, file: Option<string>)  // mendixRunner.run(path, file | null)
    | CheckFile(path: string)                            // mprChecker.check(path)
    | RunDefault(cmd: string, path: string)              // mendixRunner.runVersionSelector(cmd, path)
    | Crash(exception: string)                           // an uncaught exception ends the process

  /** JavaScript truthiness of `argv.version`: present and not the empty string. */
  predicate VersionGiven(v: Option<string>)
  {
    v.Some? && v.value != ""
  }

  /** JavaScript truthiness of `files[0]`: there is a first file and it is not the empty string. */
  predicate FirstFileGiven(files: seq<string>)
  {
    |files| > 0 && files[0] != ""
  }

  /** The message for an explicit version the catalog does not know. */
  function VersionNotFoundMessage(v: string): string
  {
    "Cannot find specified version: " + v
  }

  const NullCmd := "TypeError: Cannot read properties of null (reading 'cmd')"

  function UndefinedModelers(v: string): string
  {
    "TypeError: Cannot read properties of undefined (reading '" + v + "')"
  }

  /** `_.map(versions, ver => '    ' + ver)`: each version indented by four spaces, in order. */
  function Indented(versions: seq<string>): (lines: seq<string>)
    ensures |lines| == |versions|
    ensures forall i :: 0 <= i < |versions| ==> lines[i] == "    " + versions[i]
  {
    if versions == [] then [] else ["    " + versions[0]] + Indented(versions[1..])
  }

  /** The list-mode guard `output && output.modelers && output.versions`. */
  predicate ListingComplete(cat: Catalog)
  {
    cat.output.Some? && cat.output.value.modelers.Some? && cat.output.value.versions.Some?
  }

  /** Turns the outcome of `checkFile` into the run's action when it returned a path. */
  function AfterCheck(r: Validation, onPath: string -> Action): Action
  {
    match r
    case Resolved(p) => onPath(p)
    case Rejected(m, c) => Error(m, c)
    case Threw(e) => Crash(e)
  }

  /** The explicit-version branch, once the version string is known to be truthy. */
  function WithVersion(v: string, files: seq<string>, cat: Catalog, fs: string -> FileFacts): Action
  {
    if cat.err.Some? then Error(cat.err.value, 1)
    else if cat.output.Some? && cat.output.value.versions.Some? then
      // `output.modelers[argv.version]` is read without checking `output.modelers`
      if cat.output.value.modelers.None? then Crash(UndefinedModelers(v))
      else
        var modelers := cat.output.value.modelers.value;
        if v in modelers && modelers[v] != "" then
          if FirstFileGiven(files) then
            AfterCheck(Validate(files[0], None, fs(files[0])), p => RunWithVersion(modelers[v], Some(p)))
          else RunWithVersion(modelers[v], None)
        else Error(VersionNotFoundMessage(v), 0)   // printed, but the process is not exited
    else Error(VersionNotFoundMessage(v), 0)
  }

  /**
   * The whole chain, with the extension argument check mode passes to `checkFile`
   * as a parameter so that the code as written and its corrected form share it.
   */
  function DecideUsing(checkExts: Extensions, inv: Invocation, assoc: Association, cat: Catalog,
                       fs: string -> FileFacts): Action
  {
    if assoc.err.Some? then Error(assoc.err.value, 1)
    else if inv.update then UpdateCheck
    else if inv.list then
      if cat.err.Some? then Error(cat.err.value, 1)
      else if ListingComplete(cat) then List(Indented(cat.output.value.versions.value))
      else ListNothing
    else if inv.help || |inv.files| > 1 then Help
    else if VersionGiven(inv.version) then WithVersion(inv.version.value, inv.files, cat, fs)
    else if inv.check && |inv.files| == 1 then
      AfterCheck(Validate(inv.files[0], Some(checkExts), fs(inv.files[0])), p => CheckFile(p))
    else if FirstFileGiven(inv.files) then
      AfterCheck(Validate(inv.files[0], None, fs(inv.files[0])),
                 p => if assoc.cmd.Some? then RunDefault(assoc.cmd.value, p) else Crash(NullCmd))
    else Help
  }

  /** What cli.js passes in check mode: the string `'.mpr'`, not an array. */
  const CheckModeAsWritten: Extensions := ExtText(".mpr")

  /** What the check mode evidently means: the one-element list `['.mpr']`. */
  const CheckModeIntended: Extensions := ExtList([".mpr"])

  /** cli.js as written. */
  function Decide(inv: Invocation, assoc: Association, cat: Catalog, fs: string -> FileFacts): Action
  {
    DecideUsing(CheckModeAsWritten, inv, assoc, cat, fs)
  }

  /** cli.js with the check mode's extension argument corrected to an array. */
  function DecideCorrected(inv: Invocation, assoc: Association, cat: Catalog, fs: string -> FileFacts): Action
  {
    DecideUsing(CheckModeIntended, inv, assoc, cat, fs)
  }

  /**
   * The exit status the run ends with, when cli.js itself decides it; None when the
   * process stays with a launched or checking collaborator.
   */
  function ExitStatus(a: Action): Option<int>
  {
    match a
    case Error(_, c) => Some(c)
    case UpdateCheck => Some(0)      // the notifier's callback always calls process.exit(0)
    case List(_) => Some(0)
    case ListNothing => Some(0)
    case Help => Some(0)
    case Crash(_) => Some(1)
    case RunWithVersion(_, _) => None
    case CheckFile(_) => None
    case RunDefault(_, _) => None
  }
}
