/**
 * Test classification, the `module_to_tests` index and the affected-test
 * query, as reference definitions over graphs, with the properties that
 * connect them: what the index holds, that it agrees with the reverse
 * closure, and what the query returns.
 */
module Tests {
  import Text
  import Graphs

  /** `_is_test_file`: some pattern is a substring of the path. */
  function IsTestFile(patterns: seq<string>, path: string): (r: bool)
    ensures r <==> exists p :: p in patterns && Text.Occurs(p, path)
  {
    Text.AnyOccurs(patterns, path)
  }

  /** The test files among `S`. */
  function TestsIn(patterns: seq<string>, S: set<string>): set<string> {
    set f | f in S && IsTestFile(patterns, f)
  }

  /** The files among `S` that are not tests. */
  function NonTestsIn(patterns: seq<string>, S: set<string>): set<string> {
    set f | f in S && !IsTestFile(patterns, f)
  }

  /** Taking one more element `d` out of `todo` adds `d` to the non-tests done when it is not a test. */
  lemma NonTestsInStep(patterns: seq<string>, all: set<string>, todo: set<string>, d: string)
    requires d in todo && todo <= all
    ensures NonTestsIn(patterns, all - (todo - {d}))
         == NonTestsIn(patterns, all - todo) + (if IsTestFile(patterns, d) then {} else {d})
  {
    assert all - (todo - {d}) == (all - todo) + {d};
  }

  /** The files of `ts` from which `m` is reachable. */
  ghost function TestsReaching(g: Graphs.Graph, ts: set<string>, m: string): set<string> {
    set t | t in ts && m in Graphs.Closure(g, t)
  }

  /** The index built from the test files `ts`: each non-test node reached from one of them, with those tests. */
  ghost function IndexOver(g: Graphs.Graph, patterns: seq<string>, ts: set<string>): Graphs.Graph {
    map m | m in Graphs.Targets(g) && !IsTestFile(patterns, m) && TestsReaching(g, ts, m) != {}
      :: TestsReaching(g, ts, m)
  }

  /** `module_to_tests` as `_map_tests_to_modules` leaves it. */
  ghost function TestIndex(patterns: seq<string>, files: set<string>, g: Graphs.Graph): Graphs.Graph {
    IndexOver(g, patterns, TestsIn(patterns, files))
  }

  lemma IndexOverNone(g: Graphs.Graph, patterns: seq<string>)
    ensures IndexOver(g, patterns, {}) == map[]
  {
  }

  lemma TestsReachingExtend(g: Graphs.Graph, ts: set<string>, t: string, m: string)
    ensures TestsReaching(g, ts + {t}, m)
         == TestsReaching(g, ts, m) + (if m in Graphs.Closure(g, t) then {t} else {})
  {
  }

  /** Off the index, an eligible node simply has no tests reaching it yet. */
  lemma IndexOverEntry(g: Graphs.Graph, patterns: seq<string>, ts: set<string>, m: string)
    requires m in Graphs.Targets(g) && !IsTestFile(patterns, m)
    ensures Graphs.Succ(IndexOver(g, patterns, ts), m) == TestsReaching(g, ts, m)
  {
  }

  /**
   * Processing one more test `t` adds `t` to the entry of every non-test
   * file in its forward closure, creating missing entries.
   */
  lemma IndexOverExtend(g: Graphs.Graph, patterns: seq<string>, ts: set<string>, t: string)
    requires t !in ts
    ensures IndexOver(g, patterns, ts + {t})
         == Graphs.Attach(IndexOver(g, patterns, ts), t, NonTestsIn(patterns, Graphs.Closure(g, t)))
  {
    var L := IndexOver(g, patterns, ts + {t});
    var R := Graphs.Attach(IndexOver(g, patterns, ts), t, NonTestsIn(patterns, Graphs.Closure(g, t)));
    forall m | m in L ensures m in R && L[m] == R[m] {
      IndexOverExtendEntry(g, patterns, ts, t, m);
    }
    forall m | m in R ensures m in L {
      IndexOverExtendKey(g, patterns, ts, t, m);
    }
    assert L.Keys == R.Keys;
  }

  lemma IndexOverExtendEntry(g: Graphs.Graph, patterns: seq<string>, ts: set<string>, t: string, m: string)
    requires m in IndexOver(g, patterns, ts + {t})
    ensures m in Graphs.Attach(IndexOver(g, patterns, ts), t, NonTestsIn(patterns, Graphs.Closure(g, t)))
    ensures IndexOver(g, patterns, ts + {t})[m]
         == Graphs.Attach(IndexOver(g, patterns, ts), t, NonTestsIn(patterns, Graphs.Closure(g, t)))[m]
  {
    TestsReachingExtend(g, ts, t, m);
    IndexOverEntry(g, patterns, ts, m);
  }

  lemma IndexOverExtendKey(g: Graphs.Graph, patterns: seq<string>, ts: set<string>, t: string, m: string)
    requires m in Graphs.Attach(IndexOver(g, patterns, ts), t, NonTestsIn(patterns, Graphs.Closure(g, t)))
    ensures m in IndexOver(g, patterns, ts + {t})
  {
    TestsReachingExtend(g, ts, t, m);
    if m in NonTestsIn(patterns, Graphs.Closure(g, t)) {
      assert m in Graphs.Targets(g);
    }
  }

  /**
   * What the index holds: `t` is filed under `m` exactly when `t` is a
   * scanned test file, `m` is not a test file, and `m` is reachable from `t`
   * by forward edges. In particular no key is a test file.
   */
  lemma TestIndexMembership(patterns: seq<string>, files: set<string>, g: Graphs.Graph, m: string, t: string)
    ensures t in Graphs.Succ(TestIndex(patterns, files, g), m)
        <==> t in files && IsTestFile(patterns, t) && !IsTestFile(patterns, m) && Graphs.Reachable(g, t, m)
    ensures m in TestIndex(patterns, files, g) ==> !IsTestFile(patterns, m)
  {
    if Graphs.Reachable(g, t, m) {
      Graphs.ReachableIsTarget(g, t, m);
    }
  }

  /** The tests one changed file selects: itself if a test, the tests among its dependents, its index entry. */
  ghost function AffectedBy(patterns: seq<string>, rev: Graphs.Graph, idx: Graphs.Graph, c: string): set<string> {
    (if IsTestFile(patterns, c) then {c} else {})
      + TestsIn(patterns, Graphs.Closure(rev, c))
      + Graphs.Succ(idx, c)
  }

  /** `get_affected_tests(changed)`: the union of what each changed file selects. */
  ghost function Affected(patterns: seq<string>, rev: Graphs.Graph, idx: Graphs.Graph, changed: seq<string>): set<string> {
    if changed == [] then {}
    else Affected(patterns, rev, idx, changed[..|changed| - 1]) + AffectedBy(patterns, rev, idx, changed[|changed| - 1])
  }

  /** A test is affected exactly when some changed file selects it; no changed file, no test. */
  lemma {:induction false} AffectedMembership(patterns: seq<string>, rev: Graphs.Graph, idx: Graphs.Graph, changed: seq<string>, t: string)
    ensures t in Affected(patterns, rev, idx, changed)
        <==> exists c :: c in changed && t in AffectedBy(patterns, rev, idx, c)
  {
    if changed != [] {
      var init := changed[..|changed| - 1];
      AffectedMembership(patterns, rev, idx, init, t);
      assert forall c :: c in changed <==> c in init || c == changed[|changed| - 1];
    }
  }

  /** Adding changed files never removes an affected test. */
  lemma AffectedMonotone(patterns: seq<string>, rev: Graphs.Graph, idx: Graphs.Graph, a: seq<string>, b: seq<string>)
    requires forall c :: c in a ==> c in b
    ensures Affected(patterns, rev, idx, a) <= Affected(patterns, rev, idx, b)
  {
    forall t | t in Affected(patterns, rev, idx, a) ensures t in Affected(patterns, rev, idx, b) {
      AffectedMembership(patterns, rev, idx, a, t);
      AffectedMembership(patterns, rev, idx, b, t);
    }
  }

  /** The order and repetition of the changed files do not matter. */
  lemma AffectedIgnoresOrder(patterns: seq<string>, rev: Graphs.Graph, idx: Graphs.Graph, a: seq<string>, b: seq<string>)
    requires forall c :: c in a <==> c in b
    ensures Affected(patterns, rev, idx, a) == Affected(patterns, rev, idx, b)
  {
    AffectedMonotone(patterns, rev, idx, a, b);
    AffectedMonotone(patterns, rev, idx, b, a);
  }

  /** When every index entry holds only tests, only tests are ever selected. */
  lemma AffectedAreTests(patterns: seq<string>, rev: Graphs.Graph, idx: Graphs.Graph, changed: seq<string>)
    requires forall m, t :: t in Graphs.Succ(idx, m) ==> IsTestFile(patterns, t)
    ensures forall t :: t in Affected(patterns, rev, idx, changed) ==> IsTestFile(patterns, t)
  {
    forall t | t in Affected(patterns, rev, idx, changed) ensures IsTestFile(patterns, t) {
      AffectedMembership(patterns, rev, idx, changed, t);
    }
  }

  /** The index built by `_map_tests_to_modules` holds only test files. */
  lemma TestIndexHoldsTests(patterns: seq<string>, files: set<string>, g: Graphs.Graph)
    ensures forall m, t :: t in Graphs.Succ(TestIndex(patterns, files, g), m) ==> IsTestFile(patterns, t)
  {
    forall m, t | t in Graphs.Succ(TestIndex(patterns, files, g), m) ensures IsTestFile(patterns, t) {
      TestIndexMembership(patterns, files, g, m, t);
    }
  }

  /**
   * The forward index and the reverse closure agree: for a non-test file
   * `f`, its index entry is exactly the tests among the files reaching it
   * through the reverse graph, provided the reverse graph mirrors the
   * forward one and every importing file has a forward entry.
   */
  lemma DualPathAgreement(patterns: seq<string>, files: set<string>, g: Graphs.Graph, rev: Graphs.Graph, f: string)
    requires g.Keys == files
    requires Graphs.Symmetric(g, rev)
    requires !IsTestFile(patterns, f)
    ensures Graphs.Succ(TestIndex(patterns, files, g), f) == TestsIn(patterns, Graphs.Closure(rev, f))
  {
    Graphs.SymmetricFlip(g, rev);
    forall t ensures t in Graphs.Succ(TestIndex(patterns, files, g), f) <==> t in TestsIn(patterns, Graphs.Closure(rev, f)) {
      TestIndexMembership(patterns, files, g, f, t);
      if Graphs.Reachable(g, t, f) {
        Graphs.ReachReversed(g, rev, t, f);
        Graphs.ReachableIsTarget(rev, f, t);
      }
      if t in Graphs.Closure(rev, f) {
        Graphs.ReachReversed(rev, g, f, t);
        Graphs.ReachFromKey(g, t, f);
      }
    }
  }

  /**
   * With symmetric graphs the `module_to_tests` lookup of
   * `get_affected_tests` adds nothing beyond the tests among the dependents.
   */
  lemma IndexAddsNothing(patterns: seq<string>, files: set<string>, g: Graphs.Graph, rev: Graphs.Graph, c: string)
    requires g.Keys == files
    requires Graphs.Symmetric(g, rev)
    ensures AffectedBy(patterns, rev, TestIndex(patterns, files, g), c)
         == (if IsTestFile(patterns, c) then {c} else {}) + TestsIn(patterns, Graphs.Closure(rev, c))
  {
    if IsTestFile(patterns, c) {
      TestIndexMembership(patterns, files, g, c, c);
      assert c !in TestIndex(patterns, files, g);
    } else {
      DualPathAgreement(patterns, files, g, rev, c);
    }
  }
}
