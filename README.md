# pytest-depper dependency analysis, modelled in Dafny

This project models the core of pytest-depper. The tool picks the pytest test files affected by a change. It does this with a dependency graph built from the project's import statements. The model covers two parts.

- **`DependencyAnalyzer`** (`pytest_depper/analyzer.py`). It scans the project for `.py` files and skips excluded directories. It resolves every `import` and `from … import` against the scanned files, both absolute and relative forms. It builds the forward dependency graph and its reverse. It indexes every test file under the non-test files it reaches. Given a list of changed files, it answers with the affected tests.
- **The git helpers the selection relies on** (`pytest_depper/git_utils.py`). These are the extension filter of `get_changed_files`, the symbol lookup `_get_symbol_at_line`, and the `git diff -U0` walk of `get_changed_symbols`.

The filesystem, the parser and git are inputs to the model:
- `walk` is the list of paths `rglob("*.py")` finds, relative to the root.
- `sources` maps a file to its import nodes, in `ast.walk` order. A file maps to nothing when reading or parsing it fails.
- The standard-library names and the installed distributions are two sets.
- `stdout` is what git printed.
- `present` is the set of files that exist.
- `trees` maps a file to its function and class definitions, in `ast.walk` order.

Modules:

| module | file | contents |
|---|---|---|
| `Wrappers` | wrappers.dfy | `Option` |
| `Text` | text.dfy | substring, prefix and suffix tests, `split`/`join`, `replace`, ASCII `lower` |
| `Paths` | paths.dfy | `pathlib`'s `/` and `.parent` on relative POSIX paths |
| `Graphs` | graphs.dfy | graphs as `map<string, set<string>>` with `defaultdict` lookups, transposition, reachability, and the recursive closure walk |
| `Resolution` | resolution.dfy | `_is_external_module`, `_resolve_import`, `_resolve_relative_import`, `_extract_dependencies` as specification functions |
| `Tests` | tests.dfy | `_is_test_file`, the `module_to_tests` index and the affected-tests set as specification functions, with their lemmas |
| `Analyzer` | analyzer.dfy | the `DependencyAnalyzer` class: its fields, constructor and methods, each proved against the functions above |
| `GitUtils` | gitutils.dfy | the changed-file filter, `_get_symbol_at_line`, hunk-header parsing and the diff walk |
| `Scenario` | scenario.dfy | the sample project shipped with the repository: its graph and the tests each change selects |

Every method of the class has an `ensures` clause. That clause ties its result, or the field it fills, to a specification function. The properties are then proved about those functions. The main one is `Analyzer.SelectionIsTestsAmongDependents`. It states that `get_affected_tests` returns exactly the test files that are changed or that import a changed file, directly or transitively.

## Model

| member | source | states |
|---|---|---|
| Analyzer.DependencyAnalyzer.constructor | pytest_depper/analyzer.py:38-81 | The fields hold the root, the exclusion and test patterns (the defaults when none or an empty list is given), the scanned files, and the forward graph of those files. The reverse graph is the transpose of the forward graph. `module_to_tests` is the test index of the graph. |
| Analyzer.DependencyAnalyzer.ScanProject | pytest_depper/analyzer.py:94-100 | `python_files` becomes the set of walked paths, relative to the root, whose full path `root / rel` contains no exclusion pattern. |
| Analyzer.DependencyAnalyzer.ResolveImport | pytest_depper/analyzer.py:152-189 | The result is `Resolution.ResolveAbsolute`: empty for an external top-level name. Otherwise it holds every `a/b.py` and `a/b/__init__.py` probe, over every prefix of the dotted name, that is a scanned file. |
| Analyzer.DependencyAnalyzer.ResolveRelativeImport | pytest_depper/analyzer.py:191-230 | The result is `Resolution.ResolveRelative`: the scanned files among the module and package probes below the `level - 1`-th ancestor of the importing file's directory. |
| Analyzer.DependencyAnalyzer.ExtractDependencies | pytest_depper/analyzer.py:112-150 | The result is the union of the resolutions of all import nodes, or empty when the file could not be parsed. |
| Analyzer.DependencyAnalyzer.BuildDependencyGraph | pytest_depper/analyzer.py:102-110 | The forward graph has one entry per scanned file, holding that file's dependencies. The reverse graph is exactly its transpose. |
| Analyzer.DependencyAnalyzer.AddDependents | pytest_depper/analyzer.py:108-110 | The file is added to the reverse entry of each of its dependencies, creating the entries that are missing, and nothing else changes. |
| Analyzer.DependencyAnalyzer.GetAllDependencies | pytest_depper/analyzer.py:283-310 | The result is every file reachable from the file by one or more forward edges. |
| Analyzer.DependencyAnalyzer.GetAllDependents | pytest_depper/analyzer.py:312-339 | The result is every file reachable from the file by one or more reverse edges. |
| Analyzer.DependencyAnalyzer.MapTestsToModules | pytest_depper/analyzer.py:256-270 | `module_to_tests` becomes the index that maps each non-test file to the test files reaching it. |
| Analyzer.DependencyAnalyzer.FileUnderModules | pytest_depper/analyzer.py:267-270 | The test file joins the entry of every non-test file among its dependencies, and nothing else changes. |
| Analyzer.DependencyAnalyzer.GetAffectedTests | pytest_depper/analyzer.py:341-377 | The result is the union, over the changed files, of the file itself if it is a test, the tests among its dependents, and its index entry. Every file returned is a test file. |
| Analyzer.PatternsOrDefault | pytest_depper/analyzer.py:58-73 | A non-empty given list is used as is. `None` and the empty list both give the default. The result is empty only when the default is. |
| Analyzer.Scanned | pytest_depper/analyzer.py:94-100 | Reference definition, no contract of its own: the walked paths, relative to the root, such that no exclusion pattern is a substring of `root / rel`. |
| Analyzer.ExcludedRootExcludesAll | pytest_depper/analyzer.py:94-100 | Exclusion is matched against the whole path, root included. A root that contains a pattern therefore scans no file at all. |
| Analyzer.DependencyGraphOf | pytest_depper/analyzer.py:102-110 | The forward graph has exactly the scanned files as keys, and every dependency is a scanned file. A file that cannot be parsed has no dependencies. |
| Analyzer.GraphOverExtend | pytest_depper/analyzer.py:105-107 | Handling one more file adds exactly that file's entry. |
| Analyzer.SelectionIsTestsAmongDependents | pytest_depper/analyzer.py:341-377 | A file is selected if and only if it is a test file and, for some changed file, it is that file or a transitive dependent of it. |
| Resolution.IsExternal | pytest_depper/analyzer.py:232-254 | Standard-library names and installed distributions (case-insensitively) are external. A name is internal if and only if it is neither of those and some scanned path starts with it. |
| Resolution.ProbesStep | pytest_depper/analyzer.py:170-187 | The probes for the prefixes from `i - 1` up are the probes from `i` up, plus the module file and package file of prefix `i`. |
| Resolution.ProbesStepWithin | pytest_depper/analyzer.py:170-187 | The same step, restricted to the scanned files. |
| Resolution.SubmoduleProbeIsModuleProbe | pytest_depper/analyzer.py:183-187 | The "submodule" probe of the source is the module-file probe of the same prefix, so it adds no file. |
| Resolution.ResolveAbsolute | pytest_depper/analyzer.py:152-189 | Every resolved file is a scanned file. |
| Resolution.ResolveRelative | pytest_depper/analyzer.py:191-230 | Every resolved file is a scanned file. |
| Resolution.NodeDeps | pytest_depper/analyzer.py:130-145 | Reference definition, contract `r <= files`: `import a, b` resolves each alias absolutely. `from m import …` resolves `m` relatively when the level is positive, and absolutely otherwise. `from . import …` without a module resolves the package `__init__.py`. A node with neither a module nor a level contributes nothing. |
| Resolution.FileDeps | pytest_depper/analyzer.py:112-150 | Every dependency is a scanned file. An unparsable file has none. |
| Tests.IsTestFile | pytest_depper/analyzer.py:272-281 | A path is a test file if and only if some test pattern occurs in it as a substring. |
| Tests.TestIndex | pytest_depper/analyzer.py:256-270 | Reference definition, characterised by `Tests.TestIndexMembership`: each non-test file reached from some scanned test file maps to the set of those tests. |
| Tests.IndexOverExtend | pytest_depper/analyzer.py:262-270 | Indexing one more test file adds it to the entries of exactly the non-test files it reaches. |
| Tests.TestIndexMembership | pytest_depper/analyzer.py:256-270 | A test is listed under a file if and only if it is a scanned test file, the file is not a test, and the test reaches the file. Only non-test files are keys. |
| Tests.TestIndexHoldsTests | pytest_depper/analyzer.py:262-270 | Every entry of the index holds only test files. |
| Tests.Affected | pytest_depper/analyzer.py:341-377 | Reference definition, characterised by `Tests.AffectedMembership`: the union over the changed files of the file if it is a test, the tests in its reverse closure, and its index entry. |
| Tests.AffectedMembership | pytest_depper/analyzer.py:341-377 | A file is affected if and only if some changed file is it and it is a test, or it is a test among that file's dependents, or it is in that file's index entry. |
| Tests.AffectedMonotone | pytest_depper/analyzer.py:341-377 | More changed files never select fewer tests. |
| Tests.AffectedIgnoresOrder | pytest_depper/analyzer.py:341-377 | The selection depends only on which files changed, not on their order or repetition. |
| Tests.AffectedAreTests | pytest_depper/analyzer.py:357-375 | When the index holds only tests, every selected file is a test file. |
| Tests.DualPathAgreement | pytest_depper/analyzer.py:366-375 | For a non-test file, its index entry equals the tests among its transitive dependents. |
| Tests.IndexAddsNothing | pytest_depper/analyzer.py:366-375 | The index lookup in `get_affected_tests` adds nothing that the dependents walk has not already found. |
| Graphs.Transpose | pytest_depper/analyzer.py:108-110 | The reverse graph has exactly the imported files as keys, and no entry of it is empty. |
| Graphs.TransposeSymmetric | pytest_depper/analyzer.py:108-110 | `b` is a dependency of `a` if and only if `a` is a dependent of `b`. |
| Graphs.TransposeExtend | pytest_depper/analyzer.py:105-110 | Adding one file's entry to the forward graph adds that file to the reverse entries of its dependencies, and changes nothing else. |
| Graphs.Attach | pytest_depper/analyzer.py:108-110 | Attaching a file under some keys creates exactly those keys that are missing. |
| Graphs.ReachReversed | pytest_depper/analyzer.py:312-339 | A path in the forward graph is a path, reversed, in the reverse graph. |
| Graphs.ClosureOfAbsent | pytest_depper/analyzer.py:303 | A file without an entry has no dependencies or dependents. |
| Graphs.Collect | pytest_depper/analyzer.py:283-310 | The recursive walk grows `visited` with the node. Every newly visited file has its successors in the result, and every result is reachable from the node. |
| Graphs.AllReachable | pytest_depper/analyzer.py:283-339 | Starting from an empty `visited`, the walk returns exactly the files reachable by one or more edges. |
| Paths.Join | pytest_depper/analyzer.py:213-226 | Reference definition of `str(Path(dir) / name)`: joining onto `.` gives the name alone, a directory ending in `/` is concatenated, otherwise one `/` is put between. |
| Paths.Parent | pytest_depper/analyzer.py:205 | Reference definition of `str(Path(p).parent)`: the text before the last `/`, `/` when that is the first character, and `.` for a bare name. |
| Paths.Ancestor | pytest_depper/analyzer.py:205-209 | Reference definition: `.parent` taken `n` times. `Paths.AncestorLast` proves that one more step is one more `.parent`, the form the loop at lines 208-209 takes. |
| Paths.LastSlash | pytest_depper/analyzer.py:205 | The index found is a `/` with no `/` after it, or -1 when the path has none. |
| Paths.AncestorReachesRoot | pytest_depper/analyzer.py:204-206 | Going up more levels than a relative path has separators ends at `.`. |
| Text.Contains | pytest_depper/analyzer.py:281 | The search succeeds if and only if the substring occurs. |
| Text.Split | pytest_depper/analyzer.py:163 | Splitting gives at least one part, and no part holds the separator. |
| Text.JoinSplit | pytest_depper/git_utils.py:187 | Joining the split parts with the separator gives back the string. |
| Text.SplitJoin | pytest_depper/git_utils.py:187 | Splitting parts free of the separator, once joined, gives back the parts. |
| Text.JoinSplitIsReplace | pytest_depper/analyzer.py:174-213 | `"/".join(name.split("."))` and `name.replace(".", "/")`, the two spellings in the source, agree. |
| Text.Lower | pytest_depper/analyzer.py:246 | Lower-casing keeps the length and maps every character. |
| GitUtils.Strip | pytest_depper/git_utils.py:55 | The result is a slice of the input that neither starts nor ends with whitespace, and everything cut off is whitespace. |
| GitUtils.ChangedFiles | pytest_depper/git_utils.py:33-34 | Reference definition of `get_changed_files` after git answered: extensions default to `[".py"]`, and the stripped output is split on newlines and filtered. `GitUtils.ChangedFilesMembership` characterises it. |
| GitUtils.KeepChanged | pytest_depper/git_utils.py:58-62 | A name is kept if and only if it ends with one of the extensions and exists. The result is no longer than the input. |
| GitUtils.KeepChangedAppend | pytest_depper/git_utils.py:58-62 | The filter works name by name: filtering `a + b` is filtering `a`, then `b`. So order and repetitions are kept. |
| GitUtils.ChangedFilesMembership | pytest_depper/git_utils.py:33-34 | A file is returned if and only if it is a line of the stripped output, ends with one of the extensions (`.py` when none are given), and exists. |
| GitUtils.DefaultKeepsPython | pytest_depper/git_utils.py:33-34 | With the default extensions, only existing `.py` files are returned. |
| GitUtils.NoExtensionsKeepNothing | pytest_depper/git_utils.py:58-62 | An empty extension list keeps nothing. |
| GitUtils.BlankOutputKeepsNothing | pytest_depper/git_utils.py:55-62 | Blank output yields no file, as long as no extension is empty. |
| GitUtils.EndOf | pytest_depper/git_utils.py:137 | Reference definition of `node.end_lineno or node.lineno`: a missing or zero end line falls back to the first line. |
| GitUtils.SymbolAt | pytest_depper/git_utils.py:133-140 | Reference definition of the search: the name of the first definition in walk order whose span contains the line, or `None`. Its contract is stated by `GitUtils.SymbolAtFirst`. |
| GitUtils.SymbolAtFirst | pytest_depper/git_utils.py:133-140 | The lookup fails if and only if no definition covers the line. Otherwise it names the first definition, in walk order, that covers the line. |
| GitUtils.NamesHasCoveringDefinition | pytest_depper/git_utils.py:133-138 | A name found for a line belongs to a definition that covers the line. |
| GitUtils.OuterDefinitionWins | pytest_depper/git_utils.py:133-138 | When an enclosing definition comes first in walk order, its name is returned, not the innermost one. |
| GitUtils.PlusPlusFile | pytest_depper/git_utils.py:191-193 | A `+++` line names a file if and only if it is `+++ b/` followed by at least one character and `.py`. The file is the rest of the line. |
| GitUtils.ParseHunk | pytest_depper/git_utils.py:199-202 | A header is read only from a line that starts with `@@ -`. The old range, ` +`, the new start, an optional `,count` and ` @@` must follow. The result is the new start and count, and `GitUtils.ParseHunkHeader` proves that every written header reads back. |
| GitUtils.NewRange | pytest_depper/git_utils.py:199-202 | Reference definition of the `\+(\d+)(?:,(\d+))? @@` half of the regex. A count of 1 is used when `,count` is absent. |
| GitUtils.ParseHunkHeader | pytest_depper/git_utils.py:199-202 | Parsing a header `@@ -a[,b] +c[,d] …` yields start `c` and count `d`, or 1 when `,d` is absent. |
| GitUtils.NumberShow | pytest_depper/git_utils.py:199-201 | Reading back a printed number, followed by a non-digit, returns the number and the rest. |
| GitUtils.RangeSymbolsMembership | pytest_depper/git_utils.py:207-210 | A symbol comes from a hunk if and only if it is the name found for one of the hunk's lines. |
| GitUtils.AddHunkSymbols | pytest_depper/git_utils.py:205-210 | The file's set grows by the names of the hunk's lines, and nothing else changes. |
| GitUtils.HunkStep | pytest_depper/git_utils.py:204-210 | Reference definition of one hunk: when the current file exists, the names found at lines `start` to `start + count - 1` join its set. Otherwise the state is unchanged. |
| GitUtils.LineStep | pytest_depper/git_utils.py:189-210 | Reference definition of one loop iteration. A `+++ b/….py` line makes that file current and gives it an entry. A `+++` line for any other file changes nothing. A parsable `@@` line under a current file is a hunk step. Every other line changes nothing. |
| GitUtils.Walk | pytest_depper/git_utils.py:184-210 | Reference definition: the state after folding `LineStep` over the lines, from no current file and an empty map. |
| GitUtils.NonEmpty | pytest_depper/git_utils.py:213 | Exactly the files with at least one symbol are kept, with their symbols. |
| GitUtils.GetChangedSymbols | pytest_depper/git_utils.py:184-213 | The loop computes the walk of the diff's lines, as written, with empty files dropped. |
| GitUtils.WalkGrows | pytest_depper/git_utils.py:187-210 | Later lines never remove a file or a symbol. |
| GitUtils.ZeroCountAddsNothing | pytest_depper/git_utils.py:202-207 | A hunk with count 0, a pure deletion, adds no symbol. |
| GitUtils.WalkKeysNamed | pytest_depper/git_utils.py:189-195 | Every file in the result was named by a `+++ b/….py` line. |
| GitUtils.WalkSymbolsCovered | pytest_depper/git_utils.py:205-210 | One direction only: every symbol recorded for a file is the name found at some line of that existing file. `GitUtils.WalkSymbolsExact` says which lines. |
| GitUtils.NoFileHeaderNoSymbols | pytest_depper/git_utils.py:189-198 | Without a Python `+++` header, hunks are ignored and the result is empty. |
| GitUtils.ChangedSymbolsSound | pytest_depper/git_utils.py:184-213 | One direction only: a reported file exists, has a `+++ b/` line and a non-empty set, and each of its symbols names a definition somewhere in that file. `GitUtils.ChangedSymbolsExact` gives the exact condition. |
| GitUtils.LineStepCurrent | pytest_depper/git_utils.py:189-195 | `current_file` moves only on a `+++` line the regex accepts, to the file it names. |
| GitUtils.WalkCurrent | pytest_depper/git_utils.py:185-195 | After any prefix of the diff, `current_file` is the file of the last `+++` line the regex accepted, or `None` if there is none (`CurrentAt`). |
| GitUtils.LineStepSymbols | pytest_depper/git_utils.py:189-210 | After one line, `sym` is recorded under `f` if and only if it was before, or the line is a readable hunk header, `f` is the current file and exists, and `sym` is named at one of the hunk's new lines. |
| GitUtils.WalkSymbolsExact | pytest_depper/git_utils.py:187-210 | The loop records `sym` under `f` if and only if some line is a readable hunk header, read while `f` is the current file, `f` exists, and `sym` is named at one of that hunk's new lines. |
| GitUtils.ChangedSymbolsExact | pytest_depper/git_utils.py:184-213 | `sym` is reported under `f` if and only if some line `i` of the output is a readable hunk header, the current file at `i` is `f`, `f` exists, and some line `l` with `start <= l < start + count` lies in a definition named `sym`. |
| GitUtils.IntendedTracksHeader | pytest_depper/git_utils.py:189-195 | With the reset, the current file is always the one the latest `+++` header names, if any. |
| GitUtils.IntendedHunksUnderOwnHeader | pytest_depper/git_utils.py:189-210 | With the reset, every symbol comes from a hunk whose own header names its file. |
| GitUtils.ChangedSymbolsIntended | pytest_depper/git_utils.py:184-213 | The corrected result: only non-empty sets, and every symbol comes from a hunk under its own file's header. |
| GitUtils.MisattributedHunk | pytest_depper/git_utils.py:189-202 | For `+++ b/a.py`, `+++ b/README.md`, `@@ -1,0 +1,2 @@`, the code as written reports `{"a.py": {"f"}}`, while the corrected walk reports nothing. |
| Scenario.NotExcluded | pytest_depper/analyzer.py:58-70 | Below `examples/sample_project`, a path avoiding `n`, `b`, the neighbours `di` and `__`, and any early `.` contains none of the eleven default exclusion patterns. |
| Scenario.ScanOfSample | pytest_depper/analyzer.py:94-100 | Scanning the sample project under its repository path with the default exclusions keeps all six listed files, which are the files the rest of the scenario works on. |
| Scenario.GraphIsExpected | examples/sample_project/src/auth.py:3 | The sample project's forward graph is as follows. `auth` imports `models`, and `models` imports `validators`. Each test imports the modules it names. `re` and `pytest` resolve to nothing. |
| Scenario.ChangeToValidators | examples/sample_project/src/models.py:3 | Changing `validators.py` selects all three test files. |
| Scenario.ChangeToModels | examples/sample_project/tests/test_models.py:4 | Changing `models.py` selects `test_auth.py` and `test_models.py`. |
| Scenario.ChangeToAuth | examples/sample_project/tests/test_auth.py:4 | Changing `auth.py` selects only `test_auth.py`. |

## Left out

- `plugin.py` and `cli.py`: the pytest hooks and the command-line front end only call the modelled core and print results.
- `print_dependency_info`, `get_changed_files_and_symbols`, `has_unstaged_changes` and `get_current_branch`: these only print or forward a git result. They make no decisions the model would need.
- `_get_installed_packages`: package metadata is an input set. Its failure path gives an empty set, which is one possible input.
- The choice of git command: the `GITHUB_EVENT_NAME` test, the `origin/` fallback, the return codes and the warning printed on failure. Git's output is a parameter, and a failing command corresponds to empty output.
- `rglob`, `open`, `ast.parse`, `ast.walk` and `Path.exists`: their results are inputs (`walk`, `sources`, `trees`, `present`). A file whose read or parse fails maps to nothing.
- `hasattr(sys, "stdlib_module_names")`: the standard-library names are given as a set. An interpreter without the attribute corresponds to the empty set.
- Text.Lower: ASCII only. Unicode case mapping is not modelled.
- GitUtils.Strip: strips ASCII whitespace and the separators U+001C to U+001F, not Python's full Unicode whitespace set.
- GitUtils.ParseHunk: `\d` is read as ASCII digits only. The regex's `$` in `PlusPlusFile` is not allowed to match before a trailing newline, which cannot occur in a line produced by splitting on newlines anyway.
- `pathlib` normalisation other than `/` and `.parent`: paths are relative POSIX strings, and the root is joined as text.
- The order in which Python iterates a set: loops over sets choose elements arbitrarily, and every result is proved independent of that order.
- The `visited` set that the recursive graph walks share by reference: it is threaded through `Graphs.Collect` as an in and out parameter.
- Graphs.Collect: Python's recursion limit is not modelled. In `_get_all_dependencies` and `_get_all_dependents` (analyzer.py:283-339), a chain of dependencies longer than about a thousand files raises `RecursionError`. That error would surface from `__init__` through `_map_tests_to_modules` (analyzer.py:256-270) and from `get_affected_tests`. The model always returns the closure.
- Analyzer.DependencyAnalyzer.GetAllDependencies and Analyzer.DependencyAnalyzer.GetAllDependents: the same recursion limit is left out. Both always return the full closure.

For nested definitions `_get_symbol_at_line` returns the outermost one (git_utils.py:133-138). It returns the first covering definition in `ast.walk` order, and `ast.walk` visits an enclosing definition before the ones inside it. `GitUtils.OuterDefinitionWins` states this.

## Findings

| source | as written | input that shows it | evidently intended | confidence | as-written member | corrected member |
|---|---|---|---|---|---|---|
| pytest_depper/git_utils.py:189-195 | A `+++` line that names a file other than a `.py` file leaves `current_file` unchanged. The hunks that follow are read against the previous Python file. | A diff with the lines `+++ b/a.py`, `+++ b/README.md`, `@@ -1,0 +1,2 @@`, where `a.py` defines `f` on lines 1-3: `{"a.py": {"f"}}` is reported, although `a.py` is unchanged | A non-Python header ends the current file, so that only hunks under a file's own header are attributed to it; the result for that input is `{}` | high; not executed | GitUtils.MisattributedHunk | GitUtils.ChangedSymbolsIntended |

`GitUtils.GetChangedSymbols` models the loop as written. `GitUtils.ChangedSymbolsIntended` is the corrected result, and `GitUtils.IntendedHunksUnderOwnHeader` proves its property.
