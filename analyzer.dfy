/**
 * `DependencyAnalyzer`: built once from a snapshot of the project, it scans
 * the Python files, builds the forward and reverse dependency graphs and the
 * `module_to_tests` index, and then answers which test files are affected by
 * a list of changed files.
 *
 * The filesystem and the parser are inputs: `walk` lists the `.py` files
 * `rglob` finds, relative to the root, and `sources` maps a file to its
 * import nodes in `ast.walk` order, or to `None` (or nothing) when reading or
 * parsing it fails.
 */
module Analyzer {
  import opened Wrappers
  import Text
  import Paths
  import Graphs
  import Resolution
  import Tests

  /** The exclusion patterns `__init__` falls back to. */
  const DefaultExclusions: seq<string> :=
    ["venv", ".venv", "build", "dist", ".git", "__pycache__", ".pytest_cache",
     ".mypy_cache", ".ruff_cache", "node_modules", ".tox"]

  /** The test patterns `__init__` falls back to. */
  const DefaultTestPatterns: seq<string> := ["test_", "_test.py", "/tests/", "/test/"]

  /** Python's `given or default` on an optional list: `None` and `[]` both fall back. */
  function PatternsOrDefault(given: Option<seq<string>>, default: seq<string>): (r: seq<string>)
    ensures r == [] ==> default == []
    ensures given.Some? && given.value != [] ==> r == given.value
    ensures given.None? || given.value == [] ==> r == default
  {
    if given.Some? && given.value != [] then given.value else default
  }

  /** The file a parse outcome is recorded for; an unrecorded file failed to read. */
  function SourceOf(sources: map<string, Option<seq<Resolution.ImportNode>>>, f: string): Option<seq<Resolution.ImportNode>> {
    if f in sources then sources[f] else None
  }

  /**
   * `_scan_project`: the walked files, relative to the root, whose full path
   * (root prefix included) contains no exclusion pattern.
   */
  function Scanned(root: string, exclusions: seq<string>, walk: seq<string>): set<string> {
    set rel | rel in walk && !Text.AnyOccurs(exclusions, Paths.Join(root, rel))
  }

  lemma OccursExtend(p: string, s: string, u: string)
    requires Text.Occurs(p, s)
    ensures Text.Occurs(p, s + u)
  {
    var i :| Text.OccursAt(s, p, i);
    assert (s + u)[i..i + |p|] == s[i..i + |p|];
    assert Text.OccursAt(s + u, p, i);
  }

  /**
   * Patterns are matched against the whole path, root included: a pattern
   * occurring in the root's own name excludes every file.
   */
  lemma ExcludedRootExcludesAll(root: string, exclusions: seq<string>, walk: seq<string>)
    requires root != "" && root != "."
    requires exists p :: p in exclusions && Text.Occurs(p, root)
    ensures Scanned(root, exclusions, walk) == {}
  {
    var p :| p in exclusions && Text.Occurs(p, root);
    forall rel | rel in walk ensures Text.AnyOccurs(exclusions, Paths.Join(root, rel)) {
      if Text.EndsWith(root, "/") {
        OccursExtend(p, root, rel);
      } else {
        OccursExtend(p, root, "/" + rel);
        assert root + "/" + rel == root + ("/" + rel);
      }
    }
  }

  /**
   * The forward graph `_build_dependency_graph` builds: every scanned file
   * has an entry, a file that failed to parse an empty one, and every
   * dependency is a scanned file.
   */
  function DependencyGraphOf(env: Resolution.Environment, files: set<string>,
                             sources: map<string, Option<seq<Resolution.ImportNode>>>): (g: Graphs.Graph)
    ensures g.Keys == files
    ensures forall a :: a in g ==> g[a] <= files
    ensures forall a :: a in files && SourceOf(sources, a).None? ==> g[a] == {}
  {
    GraphOver(env, files, sources, files)
  }

  /** The forward entries of the files in `done`, as the build loop has them so far. */
  function GraphOver(env: Resolution.Environment, files: set<string>,
                     sources: map<string, Option<seq<Resolution.ImportNode>>>, done: set<string>): Graphs.Graph {
    map f | f in done :: Resolution.FileDeps(env, files, f, SourceOf(sources, f))
  }

  lemma GraphOverExtend(env: Resolution.Environment, files: set<string>,
                        sources: map<string, Option<seq<Resolution.ImportNode>>>, done: set<string>, f: string)
    ensures GraphOver(env, files, sources, done + {f})
         == GraphOver(env, files, sources, done)[f := Resolution.FileDeps(env, files, f, SourceOf(sources, f))]
  {
  }

  /**
   * What `get_affected_tests` selects on a built analyzer: a test is
   * selected exactly when it is one of the changed files, or when it
   * transitively imports one of them.  The `module_to_tests` lookup adds
   * nothing the reverse graph does not already give.
   */
  lemma SelectionIsTestsAmongDependents(patterns: seq<string>, files: set<string>, g: Graphs.Graph,
                                        changed: seq<string>, t: string)
    requires g.Keys == files
    ensures t in Tests.Affected(patterns, Graphs.Transpose(g), Tests.TestIndex(patterns, files, g), changed) <==>
      Tests.IsTestFile(patterns, t) &&
      exists c :: c in changed && (t == c || Graphs.Reachable(Graphs.Transpose(g), c, t))
  {
    var rev := Graphs.Transpose(g);
    var idx := Tests.TestIndex(patterns, files, g);
    Graphs.TransposeSymmetric(g);
    Tests.AffectedMembership(patterns, rev, idx, changed, t);
    forall c | c in changed
      ensures t in Tests.AffectedBy(patterns, rev, idx, c) <==>
        Tests.IsTestFile(patterns, t) && (t == c || Graphs.Reachable(rev, c, t))
    {
      Tests.IndexAddsNothing(patterns, files, g, rev, c);
      if Graphs.Reachable(rev, c, t) {
        Graphs.ReachableIsTarget(rev, c, t);
      }
    }
  }

  class DependencyAnalyzer {
    const projectRoot: string
    const exclusionPatterns: seq<string>
    const testPatterns: seq<string>
    /** `sys.stdlib_module_names`, injected. */
    const stdlibNames: set<string>
    /** `_get_installed_packages()`: lower-cased distribution names, injected. */
    const installedPackages: set<string>

    var pythonFiles: set<string>
    var dependencyGraph: Graphs.Graph
    var reverseGraph: Graphs.Graph
    var moduleToTests: Graphs.Graph

    function Env(): Resolution.Environment {
      Resolution.Environment(stdlibNames, installedPackages)
    }

    /** What a built analyzer keeps: the graphs mirror each other and the index is the one the graph implies. */
    ghost predicate Valid()
      reads this
    {
      && dependencyGraph.Keys == pythonFiles
      && (forall a :: a in dependencyGraph ==> dependencyGraph[a] <= pythonFiles)
      && reverseGraph == Graphs.Transpose(dependencyGraph)
      && moduleToTests == Tests.TestIndex(testPatterns, pythonFiles, dependencyGraph)
    }

    /** `__init__`: defaults, then scan, build the graphs, index the tests. */
    constructor (root: string, walk: seq<string>, sources: map<string, Option<seq<Resolution.ImportNode>>>,
                 exclusions: Option<seq<string>>, tests: Option<seq<string>>,
                 stdlib: set<string>, installed: set<string>)
      ensures projectRoot == root
      ensures exclusionPatterns == PatternsOrDefault(exclusions, DefaultExclusions)
      ensures testPatterns == PatternsOrDefault(tests, DefaultTestPatterns)
      ensures stdlibNames == stdlib && installedPackages == installed
      ensures pythonFiles == Scanned(root, exclusionPatterns, walk)
      ensures dependencyGraph == DependencyGraphOf(Env(), pythonFiles, sources)
      ensures Valid()
    {
      projectRoot := root;
      exclusionPatterns := PatternsOrDefault(exclusions, DefaultExclusions);
      testPatterns := PatternsOrDefault(tests, DefaultTestPatterns);
      stdlibNames := stdlib;
      installedPackages := installed;
      pythonFiles := {};
      dependencyGraph := map[];
      reverseGraph := map[];
      moduleToTests := map[];
      new;
      ScanProject(walk);
      BuildDependencyGraph(sources);
      MapTestsToModules();
    }

    /** `_scan_project`. */
    method ScanProject(walk: seq<string>)
      requires pythonFiles == {}
      modifies this`pythonFiles
      ensures pythonFiles == Scanned(projectRoot, exclusionPatterns, walk)
    {
      for i := 0 to |walk|
        invariant pythonFiles == Scanned(projectRoot, exclusionPatterns, walk[..i])
      {
        assert walk[..i + 1] == walk[..i] + [walk[i]];
        if Text.AnyOccurs(exclusionPatterns, Paths.Join(projectRoot, walk[i])) {
          continue;
        }
        pythonFiles := pythonFiles + {walk[i]};
      }
      assert walk[..|walk|] == walk;
    }

    /** `_resolve_import`: the loop over prefixes, longest first, with the extra submodule probe. */
    method ResolveImport(moduleName: string, fromFile: string) returns (resolved: set<string>)
      ensures resolved == Resolution.ResolveAbsolute(Env(), pythonFiles, moduleName)
    {
      resolved := {};
      var parts := Text.Split(moduleName, '.');
      if Resolution.IsExternal(Env(), pythonFiles, parts[0]) {
        return;
      }
      var i := |parts|;
      while i > 0
        invariant 0 <= i <= |parts|
        invariant resolved == Resolution.Probes(parts, i, |parts|) * pythonFiles
      {
        ghost var longer := resolved;
        var modulePath := Text.Join(parts[..i], "/") + ".py";
        if modulePath in pythonFiles {
          resolved := resolved + {modulePath};
        }
        assert resolved == longer + {modulePath} * pythonFiles;
        var initPath := Text.Join(parts[..i], "/") + "/__init__.py";
        if initPath in pythonFiles {
          resolved := resolved + {initPath};
          if i < |parts| {
            var submodulePath := Text.Join(parts[..i + 1], "/") + ".py";
            Resolution.SubmoduleProbeIsModuleProbe(parts, i);
            if submodulePath in pythonFiles {
              assert submodulePath in longer;
              resolved := resolved + {submodulePath};
            }
          }
        }
        assert resolved == longer + {modulePath} * pythonFiles + {initPath} * pythonFiles;
        assert modulePath == Resolution.ModuleProbe(parts, i) && initPath == Resolution.PackageProbe(parts, i);
        Resolution.ProbesStepWithin(parts, i, pythonFiles);
        i := i - 1;
      }
    }

    /** `_resolve_relative_import`: go up `level - 1` parents, then probe. */
    method ResolveRelativeImport(moduleName: string, level: nat, fromFile: string) returns (resolved: set<string>)
      ensures resolved == Resolution.ResolveRelative(pythonFiles, fromFile, moduleName, level)
    {
      resolved := {};
      var currentPath := Paths.Parent(fromFile);
      var ups := if level >= 1 then level - 1 else 0;
      for k := 0 to ups
        invariant currentPath == Paths.Ancestor(Paths.Parent(fromFile), k)
      {
        Paths.AncestorLast(Paths.Parent(fromFile), k);
        currentPath := Paths.Parent(currentPath);
      }
      if moduleName != "" {
        var targetPath := Paths.Join(currentPath, Text.Replace(moduleName, '.', '/'));
        var moduleFile := targetPath + ".py";
        if moduleFile in pythonFiles {
          resolved := resolved + {moduleFile};
        }
        var initFile := Paths.Join(targetPath, "__init__.py");
        if initFile in pythonFiles {
          resolved := resolved + {initFile};
        }
      } else {
        var initFile := Paths.Join(currentPath, "__init__.py");
        if initFile in pythonFiles {
          resolved := resolved + {initFile};
        }
      }
    }

    /** `_extract_dependencies`: resolve every import node of one file. */
    method ExtractDependencies(filePath: string, parsed: Option<seq<Resolution.ImportNode>>)
      returns (dependencies: set<string>)
      ensures dependencies == Resolution.FileDeps(Env(), pythonFiles, filePath, parsed)
    {
      dependencies := {};
      if parsed.None? {
        return;
      }
      var nodes := parsed.value;
      for i := 0 to |nodes|
        invariant dependencies == Resolution.NodesDeps(Env(), pythonFiles, filePath, nodes[..i])
      {
        assert nodes[..i + 1][..i] == nodes[..i];
        match nodes[i]
        case Import(names) =>
          ghost var before := dependencies;
          for j := 0 to |names|
            invariant dependencies == before + Resolution.NamesDeps(Env(), pythonFiles, names[..j])
          {
            assert names[..j + 1][..j] == names[..j];
            var deps := ResolveImport(names[j], filePath);
            dependencies := dependencies + deps;
          }
          assert names[..|names|] == names;
        case ImportFrom(moduleText, level) =>
          if Resolution.HasText(moduleText) {
            var deps;
            if level > 0 {
              deps := ResolveRelativeImport(moduleText.value, level, filePath);
            } else {
              deps := ResolveImport(moduleText.value, filePath);
            }
            dependencies := dependencies + deps;
          } else if level > 0 {
            var deps := ResolveRelativeImport("", level, filePath);
            dependencies := dependencies + deps;
          }
      }
      assert nodes[..|nodes|] == nodes;
    }

    /** `_build_dependency_graph`: a forward entry per file, and each edge mirrored in the reverse graph. */
    method BuildDependencyGraph(sources: map<string, Option<seq<Resolution.ImportNode>>>)
      requires dependencyGraph == map[] && reverseGraph == map[]
      modifies this`dependencyGraph, this`reverseGraph
      ensures dependencyGraph == DependencyGraphOf(Env(), pythonFiles, sources)
      ensures reverseGraph == Graphs.Transpose(dependencyGraph)
    {
      var remaining := pythonFiles;
      while remaining != {}
        invariant remaining <= pythonFiles
        invariant dependencyGraph == GraphOver(Env(), pythonFiles, sources, pythonFiles - remaining)
        invariant reverseGraph == Graphs.Transpose(dependencyGraph)
        decreases remaining
      {
        var pyFile :| pyFile in remaining;
        var dependencies := ExtractDependencies(pyFile, SourceOf(sources, pyFile));
        ghost var before := dependencyGraph;
        dependencyGraph := dependencyGraph[pyFile := dependencies];
        AddDependents(pyFile, dependencies);
        Graphs.TransposeExtend(before, pyFile, dependencies);
        GraphOverExtend(Env(), pythonFiles, sources, pythonFiles - remaining, pyFile);
        assert pythonFiles - (remaining - {pyFile}) == (pythonFiles - remaining) + {pyFile};
        remaining := remaining - {pyFile};
      }
    }

    /** The inner loop of `_build_dependency_graph`: `reverse_graph[dep].add(py_file)` for each dependency. */
    method AddDependents(pyFile: string, dependencies: set<string>)
      modifies this`reverseGraph
      ensures reverseGraph == Graphs.Attach(old(reverseGraph), pyFile, dependencies)
    {
      ghost var before := reverseGraph;
      Graphs.AttachNothing(before, pyFile);
      var todo := dependencies;
      while todo != {}
        invariant todo <= dependencies
        invariant reverseGraph == Graphs.Attach(before, pyFile, dependencies - todo)
        decreases todo
      {
        var dep :| dep in todo;
        Graphs.AttachStep(before, pyFile, dependencies - todo, dep);
        reverseGraph := reverseGraph[dep := Graphs.Succ(reverseGraph, dep) + {pyFile}];
        assert dependencies - (todo - {dep}) == (dependencies - todo) + {dep};
        todo := todo - {dep};
      }
      assert dependencies - todo == dependencies;
    }

    /** The inner loop of `_map_tests_to_modules`: `module_to_tests[dep].add(test_file)` for each non-test dependency. */
    method FileUnderModules(testFile: string, allDeps: set<string>)
      modifies this`moduleToTests
      ensures moduleToTests == Graphs.Attach(old(moduleToTests), testFile, Tests.NonTestsIn(testPatterns, allDeps))
    {
      ghost var before := moduleToTests;
      Graphs.AttachNothing(before, testFile);
      var todo := allDeps;
      while todo != {}
        invariant todo <= allDeps
        invariant moduleToTests == Graphs.Attach(before, testFile, Tests.NonTestsIn(testPatterns, allDeps - todo))
        decreases todo
      {
        var dep :| dep in todo;
        ghost var done := Tests.NonTestsIn(testPatterns, allDeps - todo);
        Tests.NonTestsInStep(testPatterns, allDeps, todo, dep);
        if !Tests.IsTestFile(testPatterns, dep) {
          Graphs.AttachStep(before, testFile, done, dep);
          moduleToTests := moduleToTests[dep := Graphs.Succ(moduleToTests, dep) + {testFile}];
        }
        todo := todo - {dep};
      }
      assert allDeps - todo == allDeps;
    }

    /** `_get_all_dependencies`: everything reachable by forward edges. */
    method GetAllDependencies(filePath: string) returns (allDeps: set<string>)
      ensures allDeps == Graphs.Closure(dependencyGraph, filePath)
    {
      allDeps := Graphs.AllReachable(dependencyGraph, filePath);
    }

    /** `_get_all_dependents`: everything reachable by reverse edges. */
    method GetAllDependents(filePath: string) returns (allDependents: set<string>)
      ensures allDependents == Graphs.Closure(reverseGraph, filePath)
    {
      allDependents := Graphs.AllReachable(reverseGraph, filePath);
    }

    /** `_map_tests_to_modules`: file every test under the non-test files it reaches. */
    method MapTestsToModules()
      requires moduleToTests == map[]
      modifies this`moduleToTests
      ensures moduleToTests == Tests.TestIndex(testPatterns, pythonFiles, dependencyGraph)
    {
      var testFiles := Tests.TestsIn(testPatterns, pythonFiles);
      var remaining := testFiles;
      Tests.IndexOverNone(dependencyGraph, testPatterns);
      while remaining != {}
        invariant remaining <= testFiles
        invariant moduleToTests == Tests.IndexOver(dependencyGraph, testPatterns, testFiles - remaining)
        decreases remaining
      {
        var testFile :| testFile in remaining;
        var allDeps := GetAllDependencies(testFile);
        FileUnderModules(testFile, allDeps);
        Tests.IndexOverExtend(dependencyGraph, testPatterns, testFiles - remaining, testFile);
        assert testFiles - (remaining - {testFile}) == (testFiles - remaining) + {testFile};
        remaining := remaining - {testFile};
      }
      assert testFiles - remaining == testFiles;
    }

    /**
     * `get_affected_tests`: for each changed file, itself if it is a test,
     * the tests among its transitive dependents, and its index entry.
     * Only test files are returned.
     */
    method GetAffectedTests(changedFiles: seq<string>) returns (affectedTests: set<string>)
      requires Valid()
      ensures affectedTests == Tests.Affected(testPatterns, reverseGraph, moduleToTests, changedFiles)
      ensures forall t :: t in affectedTests ==> Tests.IsTestFile(testPatterns, t)
    {
      affectedTests := {};
      for i := 0 to |changedFiles|
        invariant affectedTests == Tests.Affected(testPatterns, reverseGraph, moduleToTests, changedFiles[..i])
      {
        assert changedFiles[..i + 1][..i] == changedFiles[..i];
        var changedFile := changedFiles[i];
        if Tests.IsTestFile(testPatterns, changedFile) {
          affectedTests := affectedTests + {changedFile};
        }
        var allDependents := GetAllDependents(changedFile);
        var testDependents := set f | f in allDependents && Tests.IsTestFile(testPatterns, f);
        affectedTests := affectedTests + testDependents;
        if changedFile in moduleToTests {
          affectedTests := affectedTests + moduleToTests[changedFile];
        }
      }
      assert changedFiles[..|changedFiles|] == changedFiles;
      Tests.TestIndexHoldsTests(testPatterns, pythonFiles, dependencyGraph);
      Tests.AffectedAreTests(testPatterns, reverseGraph, moduleToTests, changedFiles);
    }
  }
}
