/**
 * `checkFile(filename, extensions)` of cli.js: resolve a path argument against the
 * working folder, require that it can be stat'ed and that its extension is allowed,
 * and otherwise stop the process with exit code 1.
 *
 * The filesystem and Node's path library are oracles: `FileFacts` carries what
 * `path.resolve`, `fs.statSync` and `path.parse(..).ext` report for the argument.
 */
module CheckFile {
  import opened Wrappers
  import JsSemantics

  /**
   * The `extensions` argument as JavaScript sees it: an array of extensions, or
   * (as the check mode passes it) a bare string.
   */
  datatype Extensions = ExtList(items: seq<string>) | ExtText(text: string)

  /** What the environment reports about one path argument. */
  datatype FileFacts = FileFacts(resolved: string, statOk: bool, ext: string)

  /** The three ways `checkFile` can end. */
  datatype Validation =
    | Resolved(path: string)                     // returns the absolute path
    | Rejected(message: string, exitCode: int)   // prints an error and calls process.exit
    | Threw(exception: string)                   // an uncaught exception escapes (Node exits with 1)

  const DefaultExtensions: Extensions := ExtList([".mpr", ".mpk"])

  const JoinNotAFunction := "TypeError: extensions.join is not a function"

  /** JavaScript falsiness of the `extensions` argument: absent, or the empty string. */
  predicate Falsy(exts: Option<Extensions>)
  {
    exts.None? || exts == Some(ExtText(""))
  }

  /** The extension set in force after `if (!extensions) extensions = ['.mpr', '.mpk']`. */
  function Effective(exts: Option<Extensions>): Extensions
  {
    if Falsy(exts) then DefaultExtensions else exts.value
  }

  /** The test `extensions.indexOf(ext) !== -1`, with the `indexOf` of the argument's own type. */
  function Admits(exts: Extensions, ext: string): bool
  {
    match exts
    case ExtList(items) => JsSemantics.ArrayIndexOf(items, ext) != -1
    case ExtText(text) => JsSemantics.StringIndexOf(text, ext) != -1
  }

  /** What that test means: list membership for an array, a substring test for a string. */
  ghost predicate Allowed(exts: Extensions, ext: string)
  {
    match exts
    case ExtList(items) => ext in items
    case ExtText(text) => JsSemantics.Contains(text, ext)
  }

  function NotFoundMessage(name: string): string
  {
    "Cannot find/read file " + name
  }

  function WrongTypeMessage(allowed: string, name: string): string
  {
    "The specified file needs to be of type " + allowed + ", \"" + name + "\" is not a valid file "
  }

  /**
   * `checkFile(name, exts)` where `facts` is what the environment reports for `name`.
   * The messages name `name`; in cli.js they print `files[0]`, which is the argument
   * at every call site.
   */
  function Validate(name: string, exts: Option<Extensions>, facts: FileFacts): (r: Validation)
    ensures r.Resolved? <==> facts.statOk && Allowed(Effective(exts), facts.ext)
    ensures r.Resolved? ==> r.path == facts.resolved
    ensures !facts.statOk ==> r == Rejected(NotFoundMessage(name), 1)
    ensures facts.statOk && !Allowed(Effective(exts), facts.ext) ==>
      match Effective(exts)
      case ExtList(items) => r == Rejected(WrongTypeMessage(JsSemantics.Join(items, "/"), name), 1)
      case ExtText(_) => r == Threw(JoinNotAFunction)
  {
    var e := Effective(exts);
    if !facts.statOk then Rejected(NotFoundMessage(name), 1)
    else if !Admits(e, facts.ext) then
      match e
      case ExtList(items) => Rejected(WrongTypeMessage(JsSemantics.Join(items, "/"), name), 1)
      case ExtText(_) => Threw(JoinNotAFunction)   // a string has no `join` method
    else Resolved(facts.resolved)
  }

  /** Every way `checkFile` fails ends the process with exit code 1. */
  lemma FailuresExitOne(name: string, exts: Option<Extensions>, facts: FileFacts)
    ensures Validate(name, exts, facts).Rejected? ==> Validate(name, exts, facts).exitCode == 1
  {
  }

  /** Omitting `extensions` is the same as passing `['.mpr', '.mpk']`, and so is passing `''`. */
  lemma DefaultsApply(name: string, facts: FileFacts)
    ensures Validate(name, None, facts) == Validate(name, Some(DefaultExtensions), facts)
    ensures Validate(name, Some(ExtText("")), facts) == Validate(name, Some(DefaultExtensions), facts)
  {
  }

  /** With the defaults, exactly `.mpr` and `.mpk` files that exist are accepted. */
  lemma DefaultAcceptance(name: string, facts: FileFacts)
    ensures Validate(name, None, facts).Resolved? <==> facts.statOk && (facts.ext == ".mpr" || facts.ext == ".mpk")
  {
  }

  /** The default rejection message lists the extensions as `.mpr/.mpk`. */
  lemma DefaultRejectionMessage(name: string, facts: FileFacts)
    requires facts.statOk && facts.ext != ".mpr" && facts.ext != ".mpk"
    ensures Validate(name, None, facts) == Rejected(WrongTypeMessage(".mpr/.mpk", name), 1)
  {
  }

  /** The substrings of `.mpr`, which is what a string `extensions` of `.mpr` admits. */
  function SubstringsOfMpr(): set<string>
  {
    {"", ".", ".m", ".mp", ".mpr", "m", "mp", "mpr", "p", "pr", "r"}
  }

  /** Every substring of `.mpr` is in that set. */
  lemma SliceOfMpr(j: nat, n: nat)
    requires j + n <= 4
    ensures ".mpr"[j..j + n] in SubstringsOfMpr()
  {
    if j == 0 {
      if n == 0 {
        assert ".mpr"[0..0] == "";
      } else if n == 1 {
        assert ".mpr"[0..1] == ".";
      } else if n == 2 {
        assert ".mpr"[0..2] == ".m";
      } else if n == 3 {
        assert ".mpr"[0..3] == ".mp";
      } else if n == 4 {
        assert ".mpr"[0..4] == ".mpr";
      }
    } else if j == 1 {
      if n == 0 {
        assert ".mpr"[1..1] == "";
      } else if n == 1 {
        assert ".mpr"[1..2] == "m";
      } else if n == 2 {
        assert ".mpr"[1..3] == "mp";
      } else if n == 3 {
        assert ".mpr"[1..4] == "mpr";
      }
    } else if j == 2 {
      if n == 0 {
        assert ".mpr"[2..2] == "";
      } else if n == 1 {
        assert ".mpr"[2..3] == "p";
      } else if n == 2 {
        assert ".mpr"[2..4] == "pr";
      }
    } else if j == 3 {
      if n == 0 {
        assert ".mpr"[3..3] == "";
      } else if n == 1 {
        assert ".mpr"[3..4] == "r";
      }
    } else if j == 4 {
      if n == 0 {
        assert ".mpr"[4..4] == "";
      }
    }
  }

  /** Passing the string `.mpr` admits exactly its substrings, not just the extension `.mpr`. */
  lemma TextMprAdmits(ext: string)
    ensures Allowed(ExtText(".mpr"), ext) <==> ext in SubstringsOfMpr()
  {
    if ext == "" {
      assert JsSemantics.OccursAt(".mpr", ext, 0);
    } else if ext == "." {
      assert JsSemantics.OccursAt(".mpr", ext, 0);
    } else if ext == ".m" {
      assert JsSemantics.OccursAt(".mpr", ext, 0);
    } else if ext == ".mp" {
      assert JsSemantics.OccursAt(".mpr", ext, 0);
    } else if ext == ".mpr" {
      assert JsSemantics.OccursAt(".mpr", ext, 0);
    } else if ext == "m" {
      assert JsSemantics.OccursAt(".mpr", ext, 1);
    } else if ext == "mp" {
      assert JsSemantics.OccursAt(".mpr", ext, 1);
    } else if ext == "mpr" {
      assert JsSemantics.OccursAt(".mpr", ext, 1);
    } else if ext == "p" {
      assert JsSemantics.OccursAt(".mpr", ext, 2);
    } else if ext == "pr" {
      assert JsSemantics.OccursAt(".mpr", ext, 2);
    } else if ext == "r" {
      assert JsSemantics.OccursAt(".mpr", ext, 3);
    }
    if JsSemantics.Contains(".mpr", ext) {
      var j: nat :| JsSemantics.OccursAt(".mpr", ext, j);
      SliceOfMpr(j, |ext|);
    }
  }
}
