/**
 * How `DependencyAnalyzer` turns the import statements of one file into
 * project files: the external-module check, absolute resolution by dotted
 * prefixes, relative resolution by walking up directories, and the dispatch
 * over `Import` / `ImportFrom` nodes. These functions are the reference
 * definitions the analyzer's loops are proved against.
 */
module Resolution {
  import opened Wrappers
  import Text
  import Paths

  /** One import node as `ast.walk` yields it. */
  datatype ImportNode =
    | Import(names: seq<string>)                      // `import a.b, c`: the `alias.name` of each alias
    | ImportFrom(moduleText: Option<string>, level: nat)  // `from <level dots><module> import ...`

  /**
   * What the interpreter reports: `sys.stdlib_module_names` (empty before
   * Python 3.10) and the lower-cased names of the installed distributions.
   */
  datatype Environment = Environment(stdlib: set<string>, installed: set<string>)

  /** Python truthiness of `node.module`: present and not empty. */
  predicate HasText(m: Option<string>) {
    m.Some? && m.value != ""
  }

  /**
   * `_is_external_module`: the standard-library set is consulted first, then
   * the installed distributions (case-insensitively), and only then whether
   * some scanned path starts with the name; a name no scanned path starts
   * with is external too.
   */
  function IsExternal(env: Environment, files: set<string>, name: string): (r: bool)
    ensures name in env.stdlib ==> r
    ensures Text.Lower(name) in env.installed ==> r
    ensures !r <==> name !in env.stdlib && Text.Lower(name) !in env.installed
                    && exists f :: f in files && Text.StartsWith(f, name)
  {
    if name in env.stdlib then true
    else if Text.Lower(name) in env.installed then true
    else if exists f | f in files :: Text.StartsWith(f, name) then false
    else true
  }

  /** The module-file probe for the first `i` dotted parts: `"a/b.py"`. */
  function ModuleProbe(parts: seq<string>, i: nat): string
    requires i <= |parts|
  {
    Text.Join(parts[..i], "/") + ".py"
  }

  /** The package probe for the first `i` dotted parts: `"a/b/__init__.py"`. */
  function PackageProbe(parts: seq<string>, i: nat): string
    requires i <= |parts|
  {
    Text.Join(parts[..i], "/") + "/__init__.py"
  }

  /** Both probes for every prefix length in `lo+1 .. hi`. */
  function Probes(parts: seq<string>, lo: nat, hi: nat): set<string>
    requires lo <= hi <= |parts|
  {
    (set i | lo < i <= hi :: ModuleProbe(parts, i)) + (set i | lo < i <= hi :: PackageProbe(parts, i))
  }

  lemma ProbesStep(parts: seq<string>, i: nat, hi: nat)
    requires 0 < i <= hi <= |parts|
    ensures Probes(parts, i - 1, hi) == Probes(parts, i, hi) + {ModuleProbe(parts, i), PackageProbe(parts, i)}
  {
    var L := Probes(parts, i - 1, hi);
    var R := Probes(parts, i, hi) + {ModuleProbe(parts, i), PackageProbe(parts, i)};
    forall p | p in L ensures p in R {
      var k :| i - 1 < k <= hi && (p == ModuleProbe(parts, k) || p == PackageProbe(parts, k));
    }
  }

  /** One more prefix length, among the scanned files: its two probes, where they are files. */
  lemma ProbesStepWithin(parts: seq<string>, i: nat, files: set<string>)
    requires 0 < i <= |parts|
    ensures Probes(parts, i - 1, |parts|) * files
         == Probes(parts, i, |parts|) * files + {ModuleProbe(parts, i)} * files + {PackageProbe(parts, i)} * files
  {
    ProbesStep(parts, i, |parts|);
  }

  /**
   * The submodule probe `_resolve_import` makes after finding a package
   * `__init__.py` for `i` parts is the module probe for `i + 1` parts, which
   * an earlier (longer) iteration has already made.
   */
  lemma SubmoduleProbeIsModuleProbe(parts: seq<string>, i: nat)
    requires i < |parts|
    ensures Text.Join(parts[..i + 1], "/") + ".py" in Probes(parts, i, |parts|)
  {
    var k: nat := i + 1;
    var modules := set j | i < j <= |parts| :: ModuleProbe(parts, j);
    assert i < k <= |parts|;
    assert ModuleProbe(parts, k) in modules;
  }

  /**
   * `_resolve_import(name)`: nothing for an external top-level name,
   * otherwise every module and package probe, over all non-empty dotted
   * prefixes, that is a scanned file.
   */
  function ResolveAbsolute(env: Environment, files: set<string>, name: string): (r: set<string>)
    ensures r <= files
  {
    var parts := Text.Split(name, '.');
    if IsExternal(env, files, parts[0]) then {} else Probes(parts, 0, |parts|) * files
  }

  /** The package directory a relative import with `level` dots names, seen from `fromFile`. */
  function RelativeBase(fromFile: string, level: nat): string {
    Paths.Ancestor(Paths.Parent(fromFile), if level >= 1 then level - 1 else 0)
  }

  /** The two paths `_resolve_relative_import` probes (one when the module text is empty). */
  function RelativeProbes(fromFile: string, moduleText: string, level: nat): set<string> {
    var base := RelativeBase(fromFile, level);
    if moduleText != "" then
      var target := Paths.Join(base, Text.Replace(moduleText, '.', '/'));
      {target + ".py", Paths.Join(target, "__init__.py")}
    else
      {Paths.Join(base, "__init__.py")}
  }

  /** `_resolve_relative_import(module, level, fromFile)`. */
  function ResolveRelative(files: set<string>, fromFile: string, moduleText: string, level: nat): (r: set<string>)
    ensures r <= files
  {
    RelativeProbes(fromFile, moduleText, level) * files
  }

  /** The absolute resolutions of the aliases of one `import` statement. */
  function NamesDeps(env: Environment, files: set<string>, names: seq<string>): (r: set<string>)
    ensures r <= files
  {
    if names == [] then {}
    else NamesDeps(env, files, names[..|names| - 1]) + ResolveAbsolute(env, files, names[|names| - 1])
  }

  /** What one import node of `fromFile` contributes to its dependencies. */
  function NodeDeps(env: Environment, files: set<string>, fromFile: string, node: ImportNode): (r: set<string>)
    ensures r <= files
  {
    match node
    case Import(names) => NamesDeps(env, files, names)
    case ImportFrom(moduleText, level) =>
      if HasText(moduleText) then
        if level > 0 then ResolveRelative(files, fromFile, moduleText.value, level)
        else ResolveAbsolute(env, files, moduleText.value)
      else if level > 0 then ResolveRelative(files, fromFile, "", level)
      else {}
  }

  /** The union of what the nodes contribute, in walk order. */
  function NodesDeps(env: Environment, files: set<string>, fromFile: string, nodes: seq<ImportNode>): (r: set<string>)
    ensures r <= files
  {
    if nodes == [] then {}
    else NodesDeps(env, files, fromFile, nodes[..|nodes| - 1]) + NodeDeps(env, files, fromFile, nodes[|nodes| - 1])
  }

  /**
   * `_extract_dependencies`: `None` stands for a file that could not be read
   * or parsed, which contributes nothing.
   */
  function FileDeps(env: Environment, files: set<string>, fromFile: string, parsed: Option<seq<ImportNode>>): (r: set<string>)
    ensures r <= files
    ensures parsed.None? ==> r == {}
  {
    if parsed.None? then {} else NodesDeps(env, files, fromFile, parsed.value)
  }
}
