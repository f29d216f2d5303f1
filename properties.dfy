/**
 * What the dispatch chain of cli.js guarantees: the order in which its branches are
 * tried, which exit code each failure carries, which file arguments are looked at,
 * and which files can reach a launch or check call.
 */
module DispatchProperties {
  import opened Wrappers
  import opened CheckFile
  import opened Dispatch

  /** The run gets past the association error, update, list and help-or-many-files tests. */
  predicate PastModeFlags(inv: Invocation, assoc: Association)
  {
    assoc.err.None? && !inv.update && !inv.list && !inv.help && |inv.files| <= 1
  }

  /** The catalog has a usable (truthy) installation path for version `v`. */
  predicate VersionKnown(cat: Catalog, v: string)
  {
    && cat.output.Some?
    && cat.output.value.versions.Some?
    && cat.output.value.modelers.Some?
    && v in cat.output.value.modelers.value
    && cat.output.value.modelers.value[v] != ""
  }

  /** The explicit-version branch reports the version as not found. */
  predicate VersionMissing(inv: Invocation, assoc: Association, cat: Catalog)
  {
    && PastModeFlags(inv, assoc)
    && VersionGiven(inv.version)
    && cat.err.None?
    && !VersionKnown(cat, inv.version.value)
    && !(cat.output.Some? && cat.output.value.versions.Some? && cat.output.value.modelers.None?)
  }

  /** The check branch is taken. */
  predicate InCheckMode(inv: Invocation, assoc: Association)
  {
    PastModeFlags(inv, assoc) && !VersionGiven(inv.version) && inv.check && |inv.files| == 1
  }

  /** The final `else` branch is taken. */
  predicate InDefaultMode(inv: Invocation, assoc: Association)
  {
    PastModeFlags(inv, assoc) && !VersionGiven(inv.version) && !(inv.check && |inv.files| == 1)
  }

  // ---------------------------------------------------------------- branch order

  /** A failed file association wins over every flag and file argument. */
  lemma AssociationErrorFirst(ce: Extensions, inv: Invocation, assoc: Association, cat: Catalog,
                              fs: string -> FileFacts)
    requires assoc.err.Some?
    ensures DecideUsing(ce, inv, assoc, cat, fs) == Error(assoc.err.value, 1)
  {
  }

  /** Otherwise `--update` wins over every other flag and over the file arguments. */
  lemma UpdateWins(ce: Extensions, inv: Invocation, assoc: Association, cat: Catalog,
                   fs: string -> FileFacts)
    requires assoc.err.None? && inv.update
    ensures DecideUsing(ce, inv, assoc, cat, fs) == UpdateCheck
  {
  }

  /**
   * List mode: a catalog error exits 1; a complete catalog lists one line per version,
   * in catalog order, indented by four spaces; an incomplete one prints nothing.
   */
  lemma ListMode(ce: Extensions, inv: Invocation, assoc: Association, cat: Catalog,
                 fs: string -> FileFacts)
    requires assoc.err.None? && !inv.update && inv.list
    ensures cat.err.Some? ==> DecideUsing(ce, inv, assoc, cat, fs) == Error(cat.err.value, 1)
    ensures cat.err.None? && ListingComplete(cat) ==>
      var a := DecideUsing(ce, inv, assoc, cat, fs);
      var vs := cat.output.value.versions.value;
      && a.List?
      && |a.lines| == |vs|
      && forall i :: 0 <= i < |vs| ==> a.lines[i] == "    " + vs[i]
    ensures cat.err.None? && !ListingComplete(cat) ==> DecideUsing(ce, inv, assoc, cat, fs) == ListNothing
    ensures ExitStatus(DecideUsing(ce, inv, assoc, cat, fs)) != None
  {
  }

  /** `--help`, or more than one file, prints the usage and exits 0 (unless update or list came first). */
  lemma HelpOrManyFiles(ce: Extensions, inv: Invocation, assoc: Association, cat: Catalog,
                        fs: string -> FileFacts)
    requires assoc.err.None? && !inv.update && !inv.list
    requires inv.help || |inv.files| > 1
    ensures DecideUsing(ce, inv, assoc, cat, fs) == Help
    ensures ExitStatus(DecideUsing(ce, inv, assoc, cat, fs)) == Some(0)
  {
  }

  // ---------------------------------------------------------------- explicit version

  /**
   * With `-v`, a catalog error exits 1, an unknown version is reported with exit code 0, and a
   * catalog with `versions` but no `modelers` crashes on the property read.
   */
  lemma VersionFailures(ce: Extensions, inv: Invocation, assoc: Association, cat: Catalog,
                        fs: string -> FileFacts)
    requires PastModeFlags(inv, assoc) && VersionGiven(inv.version)
    ensures cat.err.Some? ==> DecideUsing(ce, inv, assoc, cat, fs) == Error(cat.err.value, 1)
    ensures VersionMissing(inv, assoc, cat) ==>
      DecideUsing(ce, inv, assoc, cat, fs) == Error(VersionNotFoundMessage(inv.version.value), 0)
    ensures cat.err.None? && cat.output.Some? && cat.output.value.versions.Some? && cat.output.value.modelers.None? ==>
      DecideUsing(ce, inv, assoc, cat, fs) == Crash(UndefinedModelers(inv.version.value))
  {
  }

  /**
   * With `-v` and a known version: no file launches that installation alone; one file is
   * first validated against the defaults and launched only when it passes.
   */
  lemma VersionFound(ce: Extensions, inv: Invocation, assoc: Association, cat: Catalog,
                     fs: string -> FileFacts)
    requires PastModeFlags(inv, assoc) && VersionGiven(inv.version)
    requires cat.err.None? && VersionKnown(cat, inv.version.value)
    ensures var m := cat.output.value.modelers.value[inv.version.value];
      !FirstFileGiven(inv.files) ==> DecideUsing(ce, inv, assoc, cat, fs) == RunWithVersion(m, None)
    ensures FirstFileGiven(inv.files) ==>
      var m := cat.output.value.modelers.value[inv.version.value];
      var facts := fs(inv.files[0]);
      var a := DecideUsing(ce, inv, assoc, cat, fs);
      && (a == RunWithVersion(m, Some(facts.resolved)) <==> facts.statOk && facts.ext in [".mpr", ".mpk"])
      && (!facts.statOk ==> a == Error(NotFoundMessage(inv.files[0]), 1))
      && (facts.statOk && facts.ext !in [".mpr", ".mpk"] ==>
            a == Error(WrongTypeMessage(".mpr/.mpk", inv.files[0]), 1))
  {
  }

  // ---------------------------------------------------------------- check mode

  /**
   * Check mode as written: the string `'.mpr'` makes the extension test a substring test,
   * and a failing test crashes on `'.mpr'.join` instead of printing the message.
   */
  lemma CheckModeAsWrittenOutcomes(inv: Invocation, assoc: Association, cat: Catalog, fs: string -> FileFacts)
    requires InCheckMode(inv, assoc)
    ensures var facts := fs(inv.files[0]);
      var a := Decide(inv, assoc, cat, fs);
      && (a == CheckFile(facts.resolved) <==> facts.statOk && facts.ext in SubstringsOfMpr())
      && (!facts.statOk ==> a == Error(NotFoundMessage(inv.files[0]), 1))
      && (facts.statOk && facts.ext !in SubstringsOfMpr() ==> a == Crash(JoinNotAFunction))
  {
    TextMprAdmits(fs(inv.files[0]).ext);
  }

  /** Check mode corrected: only existing `.mpr` files are checked, others get the message and exit 1. */
  lemma CheckModeCorrectedOutcomes(inv: Invocation, assoc: Association, cat: Catalog, fs: string -> FileFacts)
    requires InCheckMode(inv, assoc)
    ensures var facts := fs(inv.files[0]);
      var a := DecideCorrected(inv, assoc, cat, fs);
      && (a == CheckFile(facts.resolved) <==> facts.statOk && facts.ext == ".mpr")
      && (!facts.statOk ==> a == Error(NotFoundMessage(inv.files[0]), 1))
      && (facts.statOk && facts.ext != ".mpr" ==> a == Error(WrongTypeMessage(".mpr", inv.files[0]), 1))
  {
  }

  /** `-c` with no file falls through to the final branch and prints the usage. */
  lemma CheckWithoutFile(ce: Extensions, inv: Invocation, assoc: Association, cat: Catalog,
                         fs: string -> FileFacts)
    requires PastModeFlags(inv, assoc) && !VersionGiven(inv.version) && inv.check && inv.files == []
    ensures DecideUsing(ce, inv, assoc, cat, fs) == Help
  {
  }

  // ---------------------------------------------------------------- default mode

  /**
   * No mode flag and one file: the file is validated against the defaults and handed to
   * the platform's own association command; no file prints the usage.
   */
  lemma DefaultMode(ce: Extensions, inv: Invocation, assoc: Association, cat: Catalog,
                    fs: string -> FileFacts)
    requires InDefaultMode(inv, assoc)
    ensures !FirstFileGiven(inv.files) ==> DecideUsing(ce, inv, assoc, cat, fs) == Help
    ensures FirstFileGiven(inv.files) ==>
      var facts := fs(inv.files[0]);
      var a := DecideUsing(ce, inv, assoc, cat, fs);
      var valid := facts.statOk && facts.ext in [".mpr", ".mpk"];
      && (valid && assoc.cmd.Some? ==> a == RunDefault(assoc.cmd.value, facts.resolved))
      && (valid && assoc.cmd.None? ==> a == Crash(NullCmd))
      && (!facts.statOk ==> a == Error(NotFoundMessage(inv.files[0]), 1))
      && (facts.statOk && facts.ext !in [".mpr", ".mpk"] ==>
            a == Error(WrongTypeMessage(".mpr/.mpk", inv.files[0]), 1))
  {
  }

  // ---------------------------------------------------------------- files looked at

  /** Only the first file argument's filesystem facts can influence the outcome. */
  lemma OnlyFirstFileConsulted(ce: Extensions, inv: Invocation, assoc: Association, cat: Catalog,
                               fs1: string -> FileFacts, fs2: string -> FileFacts)
    requires |inv.files| == 0 || fs1(inv.files[0]) == fs2(inv.files[0])
    ensures DecideUsing(ce, inv, assoc, cat, fs1) == DecideUsing(ce, inv, assoc, cat, fs2)
  {
  }

  /**
   * No file is validated on the association-error, update, list and help paths, nor when
   * an explicit version fails to load or is not found: the filesystem cannot matter there.
   */
  lemma NoFileValidated(ce: Extensions, inv: Invocation, assoc: Association, cat: Catalog,
                        fs1: string -> FileFacts, fs2: string -> FileFacts)
    requires || assoc.err.Some? || inv.update || inv.list || inv.help || |inv.files| > 1
             || (PastModeFlags(inv, assoc) && VersionGiven(inv.version) && cat.err.Some?)
             || VersionMissing(inv, assoc, cat)
    ensures DecideUsing(ce, inv, assoc, cat, fs1) == DecideUsing(ce, inv, assoc, cat, fs2)
  {
  }

  // ---------------------------------------------------------------- exit codes and launches

  /**
   * Every printed error exits 1, except one: an explicit version that is not found leaves
   * the exit status at 0, and it is the only error that does.
   */
  lemma ErrorExitCodes(ce: Extensions, inv: Invocation, assoc: Association, cat: Catalog,
                       fs: string -> FileFacts)
    ensures var a := DecideUsing(ce, inv, assoc, cat, fs);
      a.Error? ==> a.exitCode == 0 || a.exitCode == 1
    ensures var a := DecideUsing(ce, inv, assoc, cat, fs);
      (a.Error? && a.exitCode == 0) <==> VersionMissing(inv, assoc, cat)
    ensures VersionMissing(inv, assoc, cat) ==>
      DecideUsing(ce, inv, assoc, cat, fs) == Error(VersionNotFoundMessage(inv.version.value), 0)
  {
  }

  /**
   * A launch only ever names the single file argument, and only when it exists and is a
   * `.mpr` or `.mpk` file; the installation launched with `-v` is the catalog's entry.
   */
  lemma LaunchesAreValidated(ce: Extensions, inv: Invocation, assoc: Association, cat: Catalog,
                             fs: string -> FileFacts)
    ensures var a := DecideUsing(ce, inv, assoc, cat, fs);
      a.RunWithVersion? ==>
        && VersionGiven(inv.version)
        && VersionKnown(cat, inv.version.value)
        && a.modelerPath == cat.output.value.modelers.value[inv.version.value]
    ensures var a := DecideUsing(ce, inv, assoc, cat, fs);
      ((a.RunWithVersion? && a.file.Some?) || a.RunDefault?) ==>
        var p := if a.RunDefault? then a.path else a.file.value;
        && |inv.files| == 1
        && fs(inv.files[0]).statOk
        && fs(inv.files[0]).ext in [".mpr", ".mpk"]
        && p == fs(inv.files[0]).resolved
    ensures var a := DecideUsing(ce, inv, assoc, cat, fs);
      a.RunDefault? ==> assoc.cmd == Some(a.cmd)
    ensures var a := DecideUsing(ce, inv, assoc, cat, fs);
      a.CheckFile? ==>
        && InCheckMode(inv, assoc)
        && fs(inv.files[0]).statOk
        && Allowed(Effective(Some(ce)), fs(inv.files[0]).ext)
        && a.path == fs(inv.files[0]).resolved
  {
  }

  // ---------------------------------------------------------------- scenarios

  /** `mx-modeler -l` with versions 7.2.0 and 7.3.1 lists exactly those two, one per line. */
  lemma ListScenario(modelers: map<string, string>)
    ensures Decide(Invocation(false, true, false, false, None, []), Association(None, Some("open")),
                   Catalog(None, Some(CatalogOutput(Some(["7.2.0", "7.3.1"]), Some(modelers)))),
                   _ => FileFacts("", false, ""))
            == List(["    7.2.0", "    7.3.1"])
  {
    var lines := Indented(["7.2.0", "7.3.1"]);
    assert lines[0] == "    7.2.0" && lines[1] == "    7.3.1";
    assert lines == ["    7.2.0", "    7.3.1"];
  }

  /** `mx-modeler -v 9.9.9 project.mpr` with 9.9.9 not installed: the error, exit code 0. */
  lemma UnknownVersionScenario(fs: string -> FileFacts)
    ensures Decide(Invocation(false, false, false, false, Some("9.9.9"), ["project.mpr"]),
                   Association(None, Some("open")),
                   Catalog(None, Some(CatalogOutput(Some(["7.3.1"]), Some(map["7.3.1" := "C:\\Mendix\\7.3.1"])))),
                   fs)
            == Error("Cannot find specified version: 9.9.9", 0)
  {
  }

  /** `mx-modeler -c project` for an existing file without extension is checked anyway. */
  lemma CheckModeAcceptsNoExtension(assoc: Association, cat: Catalog)
    requires assoc.err.None?
    ensures Decide(Invocation(false, false, false, true, None, ["project"]), assoc, cat,
                   _ => FileFacts("/work/project", true, ""))
            == CheckFile("/work/project")
  {
  }

  /** `mx-modeler -c project.mpk` for an existing file crashes instead of printing the message. */
  lemma CheckModeMpkCrashes(assoc: Association, cat: Catalog)
    requires assoc.err.None?
    ensures Decide(Invocation(false, false, false, true, None, ["project.mpk"]), assoc, cat,
                   _ => FileFacts("/work/project.mpk", true, ".mpk"))
            == Crash(JoinNotAFunction)
  {
    TextMprAdmits(".mpk");
  }

  /** The corrected check mode rejects both with the message and exit code 1. */
  lemma CorrectedCheckModeRejects(assoc: Association, cat: Catalog, name: string, ext: string)
    requires assoc.err.None? && ext != ".mpr"
    ensures DecideCorrected(Invocation(false, false, false, true, None, [name]), assoc, cat,
                            _ => FileFacts("/work/" + name, true, ext))
            == Error(WrongTypeMessage(".mpr", name), 1)
  {
  }

  /** `mx-modeler -c missing.mpr`: the file cannot be found, exit code 1. */
  lemma MissingFileScenario(assoc: Association, cat: Catalog)
    requires assoc.err.None?
    ensures Decide(Invocation(false, false, false, true, None, ["missing.mpr"]), assoc, cat,
                   _ => FileFacts("/work/missing.mpr", false, ".mpr"))
            == Error("Cannot find/read file missing.mpr", 1)
  {
  }
}
