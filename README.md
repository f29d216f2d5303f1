# mx-modeler command-line dispatcher, modelled in Dafny

`mx-modeler` is a command-line client that opens a Mendix project file (`.mpr`/`.mpk`) in an installed
Modeler version. The file `cli.js` holds all of the client's decision logic. It has two parts.
`checkFile` validates a path argument. The top-level `if/else` chain then picks the one thing a run does:
report the association error, check for an update, list versions, print help, run a chosen version,
check a project's version, or open the file through the platform's default association.

The model is pure, as the code is:

- `wrappers.dfy` (`Wrappers`): `Option`, standing for JavaScript's `null`/`undefined`.
- `jssemantics.dfy` (`JsSemantics`): the built-ins the code depends on. These are `String.prototype.indexOf` (a substring
  search) and `Array.prototype.indexOf` (a membership search), each tied to a reference predicate (`Contains`, `in`).
  `Array.prototype.join` is a plain recursive definition, `Join`, used only to build message text.
- `checkfile.dfy` (`CheckFile`): `checkFile` as `Validate(name, extensions, facts)`. `facts` holds what
  `path.resolve`, `fs.statSync` and `path.parse(..).ext` report. `extensions` is either an array or a bare string, as
  JavaScript sees it. Omitting it, or passing the falsy `''`, selects the defaults `['.mpr', '.mpk']`.
- `dispatch.dfy` (`Dispatch`): the chain as `Decide(inv, assoc, catalog, fs)`, returning one `Action`.
  `assoc` is the file-association provider. `catalog` is the installed-version provider. `fs` maps each path
  argument to its facts. The chain is written once, as `DecideUsing(checkExts, …)`, where `checkExts` is the argument the check
  mode passes to `checkFile`. `Decide` passes the string `'.mpr'`, as cli.js does. `DecideCorrected` passes the array `['.mpr']`
  (see Findings).
- `properties.dfy` (`DispatchProperties`): the branch order, the exit codes, which files are consulted and which files
  can reach a launch. Most lemmas hold for every `checkExts`, so they hold for both `Decide` and `DecideCorrected`.

JavaScript truthiness is kept where the code relies on it:

- `-v ""` does not select the version branch.
- In the `-v` and default branches, which test `files[0]` (cli.js:129, 151), an empty first positional argument counts as no file. Check mode tests `files.length === 1` (cli.js:143), so `-c ""` validates `""`, and an empty argument still counts toward `files.length > 1` (cli.js:116).
- A version whose catalog path is the empty string counts as not found.

Two JavaScript property reads on a missing object throw. They are modelled as `Crash` (an uncaught
exception; Node exits with 1):

- `output.modelers[v]` when the catalog has `versions` but no `modelers`.
- `versionSelector.output.cmd` when the association reports neither an error nor an output.

Further behaviour of cli.js that the model keeps:

- The version-not-found message is `Cannot find specified version: v` (cli.js:141), and it leaves the exit status at 0.
- That message is also given when the catalog has no output or no `versions` (cli.js:126, 140-142).
- List mode prints nothing at all when the catalog output lacks `modelers` or `versions` (cli.js:107).
- Check mode passes the string `'.mpr'` to `checkFile` (cli.js:145), so its extension test is a substring test.
- `run` receives the installation path and the file, or `null` (cli.js:133, 137).

Every `Action` is a single value, so a run makes at most one collaborator call: `run`, `runVersionSelector`,
`check` or the update notifier.

## Model

| member | source | states |
|---|---|---|
| `JsSemantics.StringIndexFrom` | cli.js:68 | the string search from position k returns the first occurrence at or after k, or -1 exactly when there is none |
| `JsSemantics.StringIndexOf` | cli.js:68 | `s.indexOf(t) !== -1` exactly when `t` is a substring of `s` (so also when `t` is empty); a hit is the first occurrence |
| `JsSemantics.ArrayIndexFrom` | cli.js:68 | the array search from index k returns the first index at or after k holding the element, or -1 exactly when there is none |
| `JsSemantics.ArrayIndexOf` | cli.js:68 | `xs.indexOf(x) !== -1` exactly when `x` is an element of `xs`; a hit is its first index |
| `CheckFile.Validate` | cli.js:54-74 | a path is returned (resolved against the working folder) exactly when it can be stat'ed and its extension passes the test for the argument's type; a stat failure gives "Cannot find/read file …" with exit 1; a failed extension test gives "needs to be of type <exts joined by '/'>" with exit 1 for an array, and a TypeError for a string |
| `CheckFile.FailuresExitOne` | cli.js:61-71 | every rejection by `checkFile` carries exit code 1 |
| `CheckFile.DefaultsApply` | cli.js:57-59 | omitting `extensions` and passing `''` both behave as `['.mpr', '.mpk']` |
| `CheckFile.DefaultAcceptance` | cli.js:57-73 | with the defaults, exactly existing `.mpr` and `.mpk` files are accepted |
| `CheckFile.DefaultRejectionMessage` | cli.js:68-70 | with the defaults, a wrong extension is reported as needing type `.mpr/.mpk`, with exit 1 |
| `CheckFile.SliceOfMpr` | cli.js:68 | every slice of the string `.mpr` is one of its eleven substrings |
| `CheckFile.TextMprAdmits` | cli.js:68 | the string argument `.mpr` admits exactly its substrings: `''`, `.`, `.m`, `.mp`, `.mpr` among them, `.mpk` not |
| `Dispatch.Indented` | cli.js:111 | the listing has one line per version, in order, each the version prefixed with four spaces |
| `DispatchProperties.AssociationErrorFirst` | cli.js:80-83 | an association error gives that error with exit 1, whatever the flags and files |
| `DispatchProperties.UpdateWins` | cli.js:84-101 | without an association error, `--update` wins over every other flag and every file |
| `DispatchProperties.ListMode` | cli.js:102-115 | in list mode, a catalog error exits 1; a complete catalog lists one indented line per version in order; an incomplete one prints nothing and raises nothing |
| `DispatchProperties.HelpOrManyFiles` | cli.js:116-119 | `--help` or more than one file prints the usage with exit 0 once update and list are excluded |
| `DispatchProperties.VersionFailures` | cli.js:120-142 | with `-v`, a catalog error exits 1; a version that `modelers` lacks, or maps to `''`, gives "Cannot find specified version: v" with exit code 0, as does a catalog without output or `versions`; a catalog with `versions` but no `modelers` crashes on `output.modelers[v]` |
| `DispatchProperties.VersionFound` | cli.js:126-138 | with a known version, no file runs that installation with no file; one file runs it only when the file exists with extension `.mpr`/`.mpk`; otherwise the file's error with exit 1 |
| `DispatchProperties.CheckModeAsWrittenOutcomes` | cli.js:143-149 | as written, check mode checks an existing file exactly when its extension is a substring of `.mpr`; a missing file exits 1; any other extension crashes |
| `DispatchProperties.CheckModeCorrectedOutcomes` | cli.js:143-149 | corrected, check mode checks exactly the existing `.mpr` files and rejects every other extension with the message and exit 1 |
| `DispatchProperties.CheckWithoutFile` | cli.js:143-160 | `-c` with no file falls through to the final branch and prints the usage |
| `DispatchProperties.DefaultMode` | cli.js:150-161 | with no mode flag, one valid file goes to `runVersionSelector(cmd, path)` and an invalid one gets its error and exit 1; no file prints the usage |
| `DispatchProperties.OnlyFirstFileConsulted` | cli.js:129-152 | only the filesystem facts of the first file argument can change the outcome |
| `DispatchProperties.NoFileValidated` | cli.js:80-142 | on the association-error, update, list and help paths, and for a version that fails to load or is not found, the outcome does not depend on the filesystem |
| `DispatchProperties.ErrorExitCodes` | cli.js:80-162 | every error exits 0 or 1; it exits 0 exactly when an explicit version is not found |
| `DispatchProperties.LaunchesAreValidated` | cli.js:126-156 | every launch or check names the single file argument's resolved path, and only when that file exists with an allowed extension; `-v` launches the catalog's path for that version; the default launch uses the association's command |
| `DispatchProperties.ListScenario` | cli.js:102-115 | `-l` with versions 7.2.0 and 7.3.1 lists exactly those two lines |
| `DispatchProperties.UnknownVersionScenario` | cli.js:120-142 | `-v 9.9.9 project.mpr` with 9.9.9 not installed gives the not-found message with exit 0, whatever the filesystem says |
| `DispatchProperties.CheckModeAcceptsNoExtension` | cli.js:145 | `-c project` for an existing file without an extension is handed to the version checker |
| `DispatchProperties.CheckModeMpkCrashes` | cli.js:69 | `-c project.mpk` for an existing file ends in the TypeError from `'.mpr'.join` |
| `DispatchProperties.CorrectedCheckModeRejects` | cli.js:69 | corrected, an existing file with any other extension than `.mpr` gets "needs to be of type .mpr" with exit 1 |
| `DispatchProperties.MissingFileScenario` | cli.js:61-66 | `-c missing.mpr` for a file that cannot be stat'ed gives "Cannot find/read file missing.mpr" with exit 1 |

## Left out

- Banner and `chalk` colouring: cosmetic. Messages keep their text without the ` Error: ` prefix and the trailing newline.
- The informational lines printed before a launch or check (` Running …`, ` Checking …`), and the listing's header line ` The following Modeler versions are found: ` with the blank lines around it (cli.js:108-113): cosmetic. `List(lines)` carries only the version lines.
- `optimist` flag parsing: a foreign library. `Invocation` is taken as already parsed. Its conversion of numeric-looking
  positional arguments to numbers is not modelled.
- `update-notifier` and its callback: asynchronous network I/O. `UpdateCheck` stands for the call. Its exit status is the callback's `process.exit(0)`.
- Discovery of installed versions and of the file association: external providers whose source is not part of this
  model. They are the input values `Catalog` and `Association`.
- The catalog's `modelers` is a map of its own keys. Keys inherited from `Object.prototype` (`constructor`, …), which a
  JavaScript object lookup would also find, are not modelled.
- `./lib/runner` and `./lib/mpr-check`: process spawning and binary-format inspection. They are `Action` cases only, and their
  exit status is theirs (`ExitStatus` is `None`).
- `fs.statSync`, `path.resolve`, `path.parse`: filesystem and Node's path library. They are the oracle `FileFacts`.
- The exact wording of Node's TypeError messages varies with the Node version. `Crash` carries a representative text.
- `process.exit` and `console.log`: they are the exit code and message carried by the returned `Action`.

## Findings

| source | as written | input that shows it | evidently intended | confidence | as-written member | corrected member |
|---|---|---|---|---|---|---|
| cli.js:145 | check mode passes the string `'.mpr'` to `checkFile`, so `extensions.indexOf(ext)` at line 68 is a substring test | `-c project` for an existing file without an extension (ext `''`), and likewise `.`, `.m`, `.mp`: the file is handed to the version checker | only `.mpr` files are checked (`['.mpr']`) | not executed | `DispatchProperties.CheckModeAcceptsNoExtension` | `DispatchProperties.CheckModeCorrectedOutcomes` |
| cli.js:69 | when the extension test fails in check mode, `extensions.join('/')` is called on a string, which has no `join` method | `-c project.mpk` for an existing file: an uncaught TypeError, exit 1, no message printed | the message "needs to be of type .mpr" and exit 1 | not executed | `DispatchProperties.CheckModeMpkCrashes` | `DispatchProperties.CorrectedCheckModeRejects` |

`DecideCorrected` differs from `Decide` only in the check mode's extension argument. The general lemmas in `DispatchProperties` are stated
for any such argument, so they hold for the corrected dispatcher as well.
