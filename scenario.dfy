/**
 * The sample project shipped with the repository, as a worked instance:
 * three modules under `src/` (`auth` imports `.models`, `models` imports
 * `.validators`, `validators` imports `re`) and three test files under
 * `tests/` importing them with absolute `src.` names and `pytest`.
 * The lemmas below resolve those imports, fix the dependency graph they
 * give, and derive which tests a change to each module selects.
 */
module Scenario {
  import opened Wrappers
  import Text
  import Paths
  import Graphs
  import Resolution
  import Tests
  import Analyzer

  const Auth := "src/auth.py"
  const Models := "src/models.py"
  const Validators := "src/validators.py"
  const TestAuth := "tests/test_auth.py"
  const TestModels := "tests/test_models.py"
  const TestValidators := "tests/test_validators.py"

  function Files(): set<string> {
    {Auth, Models, Validators, TestAuth, TestModels, TestValidators}
  }

  /** `re` is a standard-library module and `pytest` an installed distribution. */
  function Env(): Resolution.Environment {
    Resolution.Environment({"re", "sys", "os"}, {"pytest"})
  }

  /** The import nodes of each file, in source order. */
  function Sources(): map<string, Option<seq<Resolution.ImportNode>>> {
    map[
      Auth := Some([Resolution.ImportFrom(Some("models"), 1)]),
      Models := Some([Resolution.ImportFrom(Some("validators"), 1)]),
      Validators := Some([Resolution.Import(["re"])]),
      TestAuth := Some([Resolution.Import(["pytest"]),
                        Resolution.ImportFrom(Some("src.auth"), 0),
                        Resolution.ImportFrom(Some("src.models"), 0)]),
      TestModels := Some([Resolution.Import(["pytest"]), Resolution.ImportFrom(Some("src.models"), 0)]),
      TestValidators := Some([Resolution.Import(["pytest"]), Resolution.ImportFrom(Some("src.validators"), 0)])
    ]
  }

  /** The forward graph the imports above give. */
  function Expected(): Graphs.Graph {
    map[
      Auth := {Models},
      Models := {Validators},
      Validators := {},
      TestAuth := {Auth, Models},
      TestModels := {Models},
      TestValidators := {Validators}
    ]
  }

  // ---------------------------------------------------------------------
  // Scanning
  // ---------------------------------------------------------------------

  /** Where the sample project sits in the repository, taken as the analyzer's root. */
  const Root := "examples/sample_project"

  /** `Root` with the separator `Paths.Join` puts after it. */
  const Prefix := "examples/sample_project/"

  /** What `rglob("*.py")` lists under the root, relative to it. */
  function Listed(): seq<string> {
    [Auth, Models, Validators, TestAuth, TestModels, TestValidators]
  }

  /** No two consecutive characters of `s` are `x` followed by `y`. */
  ghost predicate PairFree(s: string, x: char, y: char) {
    forall i :: 0 <= i < |s| - 1 ==> !(s[i] == x && s[i + 1] == y)
  }

  /** A pattern holding two neighbours that never stand side by side in the path does not occur in it. */
  lemma MissingPair(sub: string, s: string, k: nat)
    requires k + 1 < |sub| && PairFree(s, sub[k], sub[k + 1])
    ensures !Text.Occurs(sub, s)
  {
    forall i ensures !Text.OccursAt(s, sub, i) {
      if 0 <= i && i + |sub| <= |s| {
        assert s[i..i + |sub|][k] == s[i + k];
        assert s[i..i + |sub|][k + 1] == s[i + k + 1];
      }
    }
  }

  /** Gluing a path onto a prefix ending in `/` creates no new pair that starts with something else. */
  lemma PairFreeAfterSlash(a: string, b: string, x: char, y: char)
    requires a != [] && a[|a| - 1] == '/' && x != '/'
    requires PairFree(a, x, y) && PairFree(b, x, y)
    ensures PairFree(a + b, x, y)
  {
    forall i | 0 <= i < |a + b| - 1
      ensures !((a + b)[i] == x && (a + b)[i + 1] == y)
    {
      if i < |a| - 1 {
        assert (a + b)[i] == a[i] && (a + b)[i + 1] == a[i + 1];
      } else if i == |a| - 1 {
        assert (a + b)[i] == a[i];
      } else {
        assert (a + b)[i] == b[i - |a|] && (a + b)[i + 1] == b[i + 1 - |a|];
      }
    }
  }

  /**
   * What a listed path avoids so that no default exclusion pattern occurs
   * below the root: `n` (in `venv` and `node_modules`), `b` (in `build`),
   * the neighbours `di` (in `dist`) and `__` (in `__pycache__`), and any
   * `.` before the final `.py`, since every other pattern is a dot followed
   * by more than two characters.
   */
  ghost predicate Clean(rel: string) {
    && |rel| >= 3 && 'n' !in rel && 'b' !in rel && '.' !in rel[..|rel| - 3]
    && PairFree(rel, 'd', 'i') && PairFree(rel, '_', '_')
  }

  lemma PrefixClean()
    ensures 'n' !in Prefix && 'b' !in Prefix && '.' !in Prefix
    ensures PairFree(Prefix, 'd', 'i') && PairFree(Prefix, '_', '_')
  {
  }

  /** A pattern that is a dot and more than two characters cannot start at a dot among the last three characters. */
  lemma MissingAfterDot(sub: string, s: string)
    requires |sub| > 3 && sub[0] == '.'
    requires |s| >= 3 && '.' !in s[..|s| - 3]
    ensures !Text.Occurs(sub, s)
  {
    forall i ensures !Text.OccursAt(s, sub, i) {
      if 0 <= i && i + |sub| <= |s| {
        assert s[i..i + |sub|][0] == s[i];
        assert s[..|s| - 3][i] == s[i];
      }
    }
  }

  /** Under the root, a clean path contains none of the default exclusion patterns. */
  lemma NotExcluded(rel: string)
    requires Clean(rel)
    ensures !Text.AnyOccurs(Analyzer.DefaultExclusions, Paths.Join(Root, rel))
  {
    var s := Paths.Join(Root, rel);
    assert Root + "/" == Prefix;
    assert s == Prefix + rel;
    PrefixClean();
    PairFreeAfterSlash(Prefix, rel, 'd', 'i');
    PairFreeAfterSlash(Prefix, rel, '_', '_');
    assert s[..|s| - 3] == Prefix + rel[..|rel| - 3];
    MissingChar("venv", s, 2);
    MissingChar("build", s, 0);
    MissingPair("dist", s, 0);
    MissingPair("__pycache__", s, 0);
    MissingChar("node_modules", s, 0);
    forall p | p in [".venv", ".git", ".pytest_cache", ".mypy_cache", ".ruff_cache", ".tox"]
      ensures !Text.Occurs(p, s)
    {
      MissingAfterDot(p, s);
    }
    assert forall p :: p in Analyzer.DefaultExclusions ==>
      p in ["venv", "build", "dist", "__pycache__", "node_modules"] ||
      p in [".venv", ".git", ".pytest_cache", ".mypy_cache", ".ruff_cache", ".tox"];
  }

  lemma AuthClean() ensures Clean(Auth) {}
  lemma ModelsClean() ensures Clean(Models) {}
  lemma ValidatorsClean() ensures Clean(Validators) {}
  lemma TestAuthClean() ensures Clean(TestAuth) {}
  lemma TestModelsClean() ensures Clean(TestModels) {}
  lemma TestValidatorsClean() ensures Clean(TestValidators) {}

  /** Scanning the sample project at its place in the repository, with the default exclusions, keeps every listed file. */
  lemma ScanOfSample()
    ensures Analyzer.Scanned(Root, Analyzer.DefaultExclusions, Listed()) == Files()
  {
    AuthClean();
    ModelsClean();
    ValidatorsClean();
    TestAuthClean();
    TestModelsClean();
    TestValidatorsClean();
    forall rel | rel in Listed()
      ensures !Text.AnyOccurs(Analyzer.DefaultExclusions, Paths.Join(Root, rel))
    {
      NotExcluded(rel);
    }
  }

  // ---------------------------------------------------------------------
  // Classification
  // ---------------------------------------------------------------------

  lemma TestsAreTests()
    ensures Tests.IsTestFile(Analyzer.DefaultTestPatterns, TestAuth)
    ensures Tests.IsTestFile(Analyzer.DefaultTestPatterns, TestModels)
    ensures Tests.IsTestFile(Analyzer.DefaultTestPatterns, TestValidators)
  {
    assert Text.OccursAt(TestAuth, "test_", 6);
    assert Text.OccursAt(TestModels, "test_", 6);
    assert Text.OccursAt(TestValidators, "test_", 6);
  }

  /** A pattern holding a character the path lacks does not occur in it. */
  lemma MissingChar(sub: string, s: string, k: nat)
    requires k < |sub| && sub[k] !in s
    ensures !Text.Occurs(sub, s)
  {
    forall i ensures !Text.OccursAt(s, sub, i) {
      if 0 <= i && i + |sub| <= |s| {
        assert s[i..i + |sub|][k] == s[i + k];
        assert s[i + k] in s;
      }
    }
  }

  /** None of the default markers occurs in a module path; `_` and one of `t`, `e` are missing from each. */
  lemma NotATest(path: string, k: nat)
    requires k < 6 && "/tests/"[k] !in path && "/test/"[k] !in path
    requires '_' !in path
    ensures !Tests.IsTestFile(Analyzer.DefaultTestPatterns, path)
  {
    MissingChar("test_", path, 4);
    MissingChar("_test.py", path, 0);
    MissingChar("/tests/", path, k);
    MissingChar("/test/", path, k);
    assert forall p :: p in Analyzer.DefaultTestPatterns ==> p in ["test_", "_test.py", "/tests/", "/test/"];
  }

  lemma AuthIsNotATest()
    ensures !Tests.IsTestFile(Analyzer.DefaultTestPatterns, Auth)
  {
    NotATest(Auth, 2);
  }

  lemma ModelsIsNotATest()
    ensures !Tests.IsTestFile(Analyzer.DefaultTestPatterns, Models)
  {
    NotATest(Models, 1);
  }

  lemma ValidatorsIsNotATest()
    ensures !Tests.IsTestFile(Analyzer.DefaultTestPatterns, Validators)
  {
    NotATest(Validators, 2);
  }

  // ---------------------------------------------------------------------
  // Resolution
  // ---------------------------------------------------------------------

  /** `a.b` with no dot inside either part resolves through the four probes of its two prefixes. */
  lemma TwoPartAbsolute(env: Resolution.Environment, files: set<string>, a: string, b: string)
    requires '.' !in a && '.' !in b
    requires !Resolution.IsExternal(env, files, a)
    ensures Resolution.ResolveAbsolute(env, files, a + "." + b) ==
            {a + ".py", a + "/__init__.py", a + "/" + b + ".py", a + "/" + b + "/__init__.py"} * files
  {
    Text.SplitFree(b, '.');
    Text.SplitPrefix(a, '.', b);
    assert a + "." + b == a + ['.'] + b;
    var parts := Text.Split(a + "." + b, '.');
    assert parts == [a, b];
    assert parts[..1] == [a] && parts[..2] == [a, b];
    assert Text.Join([a, b], "/") == a + "/" + b;
    var P := Resolution.Probes(parts, 0, 2);
    assert Resolution.ModuleProbe(parts, 1) == a + ".py";
    assert Resolution.PackageProbe(parts, 1) == a + "/__init__.py";
    assert Resolution.ModuleProbe(parts, 2) == a + "/" + b + ".py";
    assert Resolution.PackageProbe(parts, 2) == a + "/" + b + "/__init__.py";
    Resolution.ProbesStep(parts, 1, 2);
    Resolution.ProbesStep(parts, 2, 2);
    assert Resolution.Probes(parts, 2, 2) == {};
  }

  /** `src` is no standard or installed name, and scanned paths start with it. */
  lemma SrcIsInternal()
    ensures !Resolution.IsExternal(Env(), Files(), "src")
  {
    assert Text.Lower("src") == "src";
    assert Text.StartsWith(Auth, "src");
  }

  /** Of four probes, only the first names a scanned file. */
  lemma OnlyFirstProbe(x: string, y: string, z: string, w: string, F: set<string>)
    requires x in F && y !in F && z !in F && w !in F
    ensures {y, z, x, w} * F == {x}
  {
  }

  lemma FileLengths()
    ensures |Auth| == 11 && |Models| == 13 && |Validators| == 17
    ensures |TestAuth| == 18 && |TestModels| == 20 && |TestValidators| == 24
    ensures TestModels[0] == 't'
  {
  }

  /** A path whose length no scanned path has (or that starts unlike the one of equal length) is not scanned. */
  lemma NotScanned(p: string)
    requires |p| !in {11, 13, 17, 18, 24}
    requires |p| == 20 ==> p[0] != 't'
    ensures p !in Files()
  {
    FileLengths();
  }

  /** `import a.b` for a module `a/b.py` of the sample resolves to just that file. */
  lemma ResolveSrcModule(b: string, f: string)
    requires '.' !in b && |b| >= 1 && "src/" + b + ".py" == f && f in Files()
    ensures Resolution.ResolveAbsolute(Env(), Files(), "src." + b) == {f}
  {
    var a := "src";
    SrcIsInternal();
    TwoPartAbsolute(Env(), Files(), a, b);
    assert a + "." + b == "src." + b;
    assert a + "/" + b + ".py" == f;
    FileLengths();
    NotScanned(a + ".py");
    NotScanned(a + "/__init__.py");
    NotScanned(a + "/" + b + "/__init__.py");
    OnlyFirstProbe(f, a + ".py", a + "/__init__.py", a + "/" + b + "/__init__.py", Files());
  }

  lemma ImportSrcAuth()
    ensures Resolution.ResolveAbsolute(Env(), Files(), "src.auth") == {Auth}
  {
    assert "src/" + "auth" + ".py" == Auth;
    ResolveSrcModule("auth", Auth);
    assert "src." + "auth" == "src.auth";
  }

  lemma ImportSrcModels()
    ensures Resolution.ResolveAbsolute(Env(), Files(), "src.models") == {Models}
  {
    assert "src/" + "models" + ".py" == Models;
    ResolveSrcModule("models", Models);
    assert "src." + "models" == "src.models";
  }

  lemma ImportSrcValidators()
    ensures Resolution.ResolveAbsolute(Env(), Files(), "src.validators") == {Validators}
  {
    assert "src/" + "validators" + ".py" == Validators;
    ResolveSrcModule("validators", Validators);
    assert "src." + "validators" == "src.validators";
  }

  lemma {:induction false} LastSlashAfter(dir: string, base: string)
    requires '/' !in base
    ensures Paths.LastSlash(dir + "/" + base) == |dir|
  {
    var p := dir + "/" + base;
    if base == [] {
      assert p[|p| - 1] == '/';
    } else {
      var shorter := base[..|base| - 1];
      assert p[..|p| - 1] == dir + "/" + shorter;
      assert p[|p| - 1] == base[|base| - 1] && base[|base| - 1] in base;
      LastSlashAfter(dir, shorter);
    }
  }

  /** `from .m import ...` in `dir/base.py` probes `dir/m.py` and `dir/m/__init__.py`. */
  lemma SiblingRelative(files: set<string>, dir: string, base: string, m: string)
    requires '/' !in base && dir != "" && dir != "." && !Text.EndsWith(dir, "/")
    requires m != "" && '.' !in m && '/' !in m
    ensures Resolution.ResolveRelative(files, dir + "/" + base, m, 1) ==
            {dir + "/" + m + ".py", dir + "/" + m + "/__init__.py"} * files
  {
    var p := dir + "/" + base;
    LastSlashAfter(dir, base);
    assert p[..|dir|] == dir;
    assert Paths.Parent(p) == dir;
    var r := Text.Replace(m, '.', '/');
    assert r == m;
    var target := dir + "/" + m;
    assert Paths.Join(dir, m) == target;
    assert target[|target| - 1] == m[|m| - 1] && m[|m| - 1] in m;
    assert !Text.EndsWith(target, "/");
    assert Paths.Join(target, "__init__.py") == target + "/__init__.py";
  }

  /** `from .m import ...` in a module of `src/` resolves to the sibling `src/m.py`. */
  lemma SrcSibling(base: string, m: string, from: string, to: string)
    requires '/' !in base && m != "" && '.' !in m && '/' !in m
    requires from == "src" + "/" + base && to == "src" + "/" + m + ".py" && to in Files()
    ensures Resolution.ResolveRelative(Files(), from, m, 1) == {to}
  {
    assert !Text.EndsWith("src", "/");
    SiblingRelative(Files(), "src", base, m);
    FileLengths();
    NotScanned("src" + "/" + m + "/__init__.py");
  }

  lemma ImportDotModels()
    ensures Resolution.ResolveRelative(Files(), Auth, "models", 1) == {Models}
  {
    assert Auth == "src" + "/" + "auth.py";
    assert Models == "src" + "/" + "models" + ".py";
    SrcSibling("auth.py", "models", Auth, Models);
  }

  lemma ImportDotValidators()
    ensures Resolution.ResolveRelative(Files(), Models, "validators", 1) == {Validators}
  {
    assert Models == "src" + "/" + "models.py";
    assert Validators == "src" + "/" + "validators" + ".py";
    SrcSibling("models.py", "validators", Models, Validators);
  }

  /** `import re` and `import pytest` add no edge: one is standard, the other installed. */
  lemma ExternalImports()
    ensures Resolution.NamesDeps(Env(), Files(), ["re"]) == {}
    ensures Resolution.NamesDeps(Env(), Files(), ["pytest"]) == {}
  {
    Text.SplitFree("re", '.');
    Text.SplitFree("pytest", '.');
    assert Text.Lower("pytest") == "pytest";
    assert ["re"][..0] == [] && ["pytest"][..0] == [];
  }

  lemma AuthDeps()
    ensures Resolution.FileDeps(Env(), Files(), Auth, Some([Resolution.ImportFrom(Some("models"), 1)])) == {Models}
  {
    ImportDotModels();
    var nodes := [Resolution.ImportFrom(Some("models"), 1)];
    assert nodes[..0] == [];
  }

  lemma ModelsDeps()
    ensures Resolution.FileDeps(Env(), Files(), Models, Some([Resolution.ImportFrom(Some("validators"), 1)])) == {Validators}
  {
    ImportDotValidators();
    var nodes := [Resolution.ImportFrom(Some("validators"), 1)];
    assert nodes[..0] == [];
  }

  lemma ValidatorsDeps()
    ensures Resolution.FileDeps(Env(), Files(), Validators, Some([Resolution.Import(["re"])])) == {}
  {
    ExternalImports();
    var nodes := [Resolution.Import(["re"])];
    assert nodes[..0] == [];
  }

  /** An `import pytest` first and then one `from name import ...`: only the latter counts. */
  lemma PytestThen(fromFile: string, name: string)
    requires name != ""
    ensures Resolution.NodesDeps(Env(), Files(), fromFile,
              [Resolution.Import(["pytest"]), Resolution.ImportFrom(Some(name), 0)])
         == Resolution.ResolveAbsolute(Env(), Files(), name)
  {
    ExternalImports();
    var nodes := [Resolution.Import(["pytest"]), Resolution.ImportFrom(Some(name), 0)];
    assert nodes[..1][..0] == [] && nodes[..1] == [Resolution.Import(["pytest"])];
    assert Resolution.NodesDeps(Env(), Files(), fromFile, nodes[..1]) == {};
  }

  /** `import pytest` and then two `from name import ...`: only the latter two count. */
  lemma PytestThenTwo(fromFile: string, x: string, y: string)
    requires x != "" && y != ""
    ensures Resolution.NodesDeps(Env(), Files(), fromFile,
              [Resolution.Import(["pytest"]), Resolution.ImportFrom(Some(x), 0), Resolution.ImportFrom(Some(y), 0)])
         == Resolution.ResolveAbsolute(Env(), Files(), x) + Resolution.ResolveAbsolute(Env(), Files(), y)
  {
    PytestThen(fromFile, x);
    var nodes := [Resolution.Import(["pytest"]), Resolution.ImportFrom(Some(x), 0), Resolution.ImportFrom(Some(y), 0)];
    assert nodes[..2] == [Resolution.Import(["pytest"]), Resolution.ImportFrom(Some(x), 0)];
  }

  lemma TestAuthDeps()
    ensures Resolution.FileDeps(Env(), Files(), TestAuth,
              Some([Resolution.Import(["pytest"]),
                    Resolution.ImportFrom(Some("src.auth"), 0),
                    Resolution.ImportFrom(Some("src.models"), 0)])) == {Auth, Models}
  {
    ImportSrcAuth();
    ImportSrcModels();
    PytestThenTwo(TestAuth, "src.auth", "src.models");
  }

  lemma TestModelsDeps()
    ensures Resolution.FileDeps(Env(), Files(), TestModels,
              Some([Resolution.Import(["pytest"]), Resolution.ImportFrom(Some("src.models"), 0)])) == {Models}
  {
    ImportSrcModels();
    PytestThen(TestModels, "src.models");
  }

  lemma TestValidatorsDeps()
    ensures Resolution.FileDeps(Env(), Files(), TestValidators,
              Some([Resolution.Import(["pytest"]), Resolution.ImportFrom(Some("src.validators"), 0)])) == {Validators}
  {
    ImportSrcValidators();
    PytestThen(TestValidators, "src.validators");
  }

  // ---------------------------------------------------------------------
  // The graph
  // ---------------------------------------------------------------------

  /** The six sample paths have six different lengths, so are pairwise distinct. */
  lemma ExpectedEntries()
    ensures Expected().Keys == Files()
    ensures Expected()[Auth] == {Models} && Expected()[Models] == {Validators} && Expected()[Validators] == {}
    ensures Expected()[TestAuth] == {Auth, Models} && Expected()[TestModels] == {Models}
    ensures Expected()[TestValidators] == {Validators}
  {
    FileLengths();
  }

  /** The entry the build gives one file is what its own imports resolve to. */
  lemma EntryOf(f: string, nodes: seq<Resolution.ImportNode>, deps: set<string>)
    requires f in Files() && f in Sources() && Sources()[f] == Some(nodes)
    requires Resolution.FileDeps(Env(), Files(), f, Some(nodes)) == deps
    ensures f in Analyzer.DependencyGraphOf(Env(), Files(), Sources())
    ensures Analyzer.DependencyGraphOf(Env(), Files(), Sources())[f] == deps
  {
  }

  lemma SourceEntries()
    ensures Sources()[Auth] == Some([Resolution.ImportFrom(Some("models"), 1)])
    ensures Sources()[Models] == Some([Resolution.ImportFrom(Some("validators"), 1)])
    ensures Sources()[Validators] == Some([Resolution.Import(["re"])])
    ensures Sources()[TestAuth] == Some([Resolution.Import(["pytest"]),
                                         Resolution.ImportFrom(Some("src.auth"), 0),
                                         Resolution.ImportFrom(Some("src.models"), 0)])
    ensures Sources()[TestModels] == Some([Resolution.Import(["pytest"]), Resolution.ImportFrom(Some("src.models"), 0)])
    ensures Sources()[TestValidators] == Some([Resolution.Import(["pytest"]), Resolution.ImportFrom(Some("src.validators"), 0)])
  {
    FileLengths();
  }

  lemma GraphIsExpected()
    ensures Analyzer.DependencyGraphOf(Env(), Files(), Sources()) == Expected()
  {
    var g := Analyzer.DependencyGraphOf(Env(), Files(), Sources());
    SourceEntries();
    AuthDeps();
    EntryOf(Auth, [Resolution.ImportFrom(Some("models"), 1)], {Models});
    ModelsDeps();
    EntryOf(Models, [Resolution.ImportFrom(Some("validators"), 1)], {Validators});
    ValidatorsDeps();
    EntryOf(Validators, [Resolution.Import(["re"])], {});
    TestAuthDeps();
    EntryOf(TestAuth, [Resolution.Import(["pytest"]),
                       Resolution.ImportFrom(Some("src.auth"), 0),
                       Resolution.ImportFrom(Some("src.models"), 0)], {Auth, Models});
    TestModelsDeps();
    EntryOf(TestModels, [Resolution.Import(["pytest"]), Resolution.ImportFrom(Some("src.models"), 0)], {Models});
    TestValidatorsDeps();
    EntryOf(TestValidators, [Resolution.Import(["pytest"]), Resolution.ImportFrom(Some("src.validators"), 0)], {Validators});
    ExpectedEntries();
    SameEntries(g, Expected());
  }

  /** Two graphs over the sample files that agree on each of them are equal. */
  lemma SameEntries(g: Graphs.Graph, e: Graphs.Graph)
    requires g.Keys == Files() && e.Keys == Files()
    requires g[Auth] == e[Auth] && g[Models] == e[Models] && g[Validators] == e[Validators]
    requires g[TestAuth] == e[TestAuth] && g[TestModels] == e[TestModels] && g[TestValidators] == e[TestValidators]
    ensures g == e
  {
    forall k | k in g ensures g[k] == e[k] {
    }
  }

  // ---------------------------------------------------------------------
  // Selection
  // ---------------------------------------------------------------------

  /** The tests a built analyzer over the sample selects for a list of changed files. */
  ghost function Selected(changed: seq<string>): set<string> {
    var g := Analyzer.DependencyGraphOf(Env(), Files(), Sources());
    Tests.Affected(Analyzer.DefaultTestPatterns, Graphs.Transpose(g),
                   Tests.TestIndex(Analyzer.DefaultTestPatterns, Files(), g), changed)
  }

  /** One changed file selects the tests that are it or import it, directly or not. */
  lemma SelectedByOne(c: string, t: string)
    ensures t in Selected([c]) <==>
      Tests.IsTestFile(Analyzer.DefaultTestPatterns, t) && (t == c || Graphs.Reachable(Expected(), t, c))
  {
    GraphIsExpected();
    var g := Expected();
    var r := Graphs.Transpose(g);
    Analyzer.SelectionIsTestsAmongDependents(Analyzer.DefaultTestPatterns, Files(), g, [c], t);
    ExpectedEntries();
    Graphs.TransposeSymmetric(g);
    Graphs.SymmetricFlip(g, r);
    if Graphs.Reachable(r, c, t) {
      Graphs.ReachReversed(r, g, c, t);
    }
    if Graphs.Reachable(g, t, c) {
      Graphs.ReachReversed(g, r, t, c);
    }
    assert c in [c];
  }

  lemma ForwardReach()
    ensures Graphs.Reachable(Expected(), TestAuth, Auth) && Graphs.Reachable(Expected(), TestAuth, Models)
    ensures Graphs.Reachable(Expected(), TestAuth, Validators)
    ensures Graphs.Reachable(Expected(), TestModels, Models) && Graphs.Reachable(Expected(), TestModels, Validators)
    ensures Graphs.Reachable(Expected(), TestValidators, Validators)
  {
    var g := Expected();
    ExpectedEntries();
    Graphs.ReachEdge(g, TestAuth, Auth);
    Graphs.ReachEdge(g, TestAuth, Models);
    Graphs.ReachEdge(g, Models, Validators);
    Graphs.ReachPrepend(g, TestAuth, Models, Validators);
    Graphs.ReachEdge(g, TestModels, Models);
    Graphs.ReachPrepend(g, TestModels, Models, Validators);
    Graphs.ReachEdge(g, TestValidators, Validators);
  }

  lemma NoForwardReach()
    ensures !Graphs.Reachable(Expected(), TestModels, Auth)
    ensures !Graphs.Reachable(Expected(), TestValidators, Auth)
    ensures !Graphs.Reachable(Expected(), TestValidators, Models)
  {
    var g := Expected();
    ExpectedEntries();
    FileLengths();
    assert Graphs.Succ(g, Models) == {Validators} && Graphs.Succ(g, Validators) == {};
    Graphs.ClosedSetHoldsReach(g, TestModels, {Models, Validators});
    Graphs.ClosedSetHoldsReach(g, TestValidators, {Validators});
  }

  /** A path that is not one of the sample files imports nothing, so is selected by no module. */
  lemma OutsideSelectsNothing(c: string, t: string)
    requires c in Files() && t !in Files()
    ensures t !in Selected([c])
  {
    SelectedByOne(c, t);
    ExpectedEntries();
    if Graphs.Reachable(Expected(), t, c) {
      Graphs.ReachFromKey(Expected(), t, c);
    }
  }

  /** The modules are no tests, so they are never selected. */
  lemma ModulesNotSelected(c: string)
    ensures Auth !in Selected([c]) && Models !in Selected([c]) && Validators !in Selected([c])
  {
    SelectedByOne(c, Auth);
    SelectedByOne(c, Models);
    SelectedByOne(c, Validators);
    AuthIsNotATest();
    ModelsIsNotATest();
    ValidatorsIsNotATest();
  }

  /** A selection over the sample is fixed by which of the three tests it holds. */
  lemma SelectionOfSample(sel: set<string>, tests: set<string>)
    requires tests <= {TestAuth, TestModels, TestValidators}
    requires sel <= Files()
    requires Auth !in sel && Models !in sel && Validators !in sel
    requires (TestAuth in sel <==> TestAuth in tests) && (TestModels in sel <==> TestModels in tests)
    requires TestValidators in sel <==> TestValidators in tests
    ensures sel == tests
  {
  }

  /** What one changed module selects lies among the sample's tests. */
  lemma SelectedAmongFiles(c: string)
    requires c in Files()
    ensures Selected([c]) <= Files()
    ensures Auth !in Selected([c]) && Models !in Selected([c]) && Validators !in Selected([c])
  {
    ModulesNotSelected(c);
    forall t | t in Selected([c]) ensures t in Files() {
      if t !in Files() {
        OutsideSelectsNothing(c, t);
      }
    }
  }

  /** A change to `validators` selects all three tests: each reaches it. */
  lemma ChangeToValidators()
    ensures Selected([Validators]) == {TestAuth, TestModels, TestValidators}
  {
    TestsAreTests();
    ForwardReach();
    SelectedByOne(Validators, TestAuth);
    SelectedByOne(Validators, TestModels);
    SelectedByOne(Validators, TestValidators);
    SelectedAmongFiles(Validators);
    SelectionOfSample(Selected([Validators]), {TestAuth, TestModels, TestValidators});
  }

  /** A change to `models` selects the tests importing it and those importing `auth`, which imports it. */
  lemma ChangeToModels()
    ensures Selected([Models]) == {TestAuth, TestModels}
  {
    TestsAreTests();
    ForwardReach();
    NoForwardReach();
    FileLengths();
    SelectedByOne(Models, TestAuth);
    SelectedByOne(Models, TestModels);
    SelectedByOne(Models, TestValidators);
    SelectedAmongFiles(Models);
    SelectionOfSample(Selected([Models]), {TestAuth, TestModels});
  }

  /** A change to `auth` selects only the test importing it. */
  lemma ChangeToAuth()
    ensures Selected([Auth]) == {TestAuth}
  {
    TestsAreTests();
    ForwardReach();
    NoForwardReach();
    FileLengths();
    SelectedByOne(Auth, TestAuth);
    SelectedByOne(Auth, TestModels);
    SelectedByOne(Auth, TestValidators);
    SelectedAmongFiles(Auth);
    SelectionOfSample(Selected([Auth]), {TestAuth});
  }
}
