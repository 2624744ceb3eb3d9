/**
 * Dependency graphs as the analyzer keeps them (`dict[str, set[str]]` built
 * from `defaultdict(set)`), their transpose, reachability by paths, and the
 * cycle-safe depth-first search that `_get_all_dependencies` and
 * `_get_all_dependents` run with a shared `visited` set.
 */
module Graphs {

  /** file -> set of files; a file that is not a key has no successors. */
  type Graph = map<string, set<string>>

  /** `graph.get(x, set())`. */
  function Succ(g: Graph, x: string): set<string> {
    if x in g then g[x] else {}
  }

  /** Every node some edge points to. */
  function Targets(g: Graph): set<string> {
    set a, b | a in g && b in g[a] :: b
  }

  /** Every node that is a key or the target of an edge. */
  function Nodes(g: Graph): set<string> {
    g.Keys + Targets(g)
  }

  /** The nodes with an edge to `b`. */
  function Importers(g: Graph, b: string): set<string> {
    set a | a in g && b in g[a]
  }

  /** `r` holds exactly the reversed edges of `g`. */
  ghost predicate Symmetric(g: Graph, r: Graph) {
    forall a, b :: b in Succ(g, a) <==> a in Succ(r, b)
  }

  /**
   * The reverse graph: one key per node that something points to, holding the
   * nodes pointing to it.
   */
  function Transpose(g: Graph): (r: Graph)
    ensures r.Keys == Targets(g)
    ensures forall b :: b in r ==> r[b] != {}
  {
    TargetsHaveImporters(g);
    map b | b in Targets(g) :: Importers(g, b)
  }

  lemma TargetsHaveImporters(g: Graph)
    ensures forall b :: b in Targets(g) ==> Importers(g, b) != {}
  {
    forall b | b in Targets(g) ensures Importers(g, b) != {} {
      var a :| a in g && b in g[a];
      assert a in Importers(g, b);
    }
  }

  /** The transpose reverses every edge and adds none. */
  lemma TransposeSymmetric(g: Graph)
    ensures Symmetric(g, Transpose(g))
  {
    var r := Transpose(g);
    forall a, b
      ensures b in Succ(g, a) <==> a in Succ(r, b)
    {
      if b in Succ(g, a) {
        assert b in Targets(g);
        assert a in Importers(g, b);
      }
    }
  }

  /**
   * `for k in keys: idx[k].add(x)` on a defaultdict: every key in `keys`
   * gains `x`, missing keys being created first.
   */
  function Attach(idx: Graph, x: string, keys: set<string>): (r: Graph)
    ensures r.Keys == idx.Keys + keys
  {
    map k | k in idx.Keys + keys :: Succ(idx, k) + (if k in keys then {x} else {})
  }

  lemma AttachNothing(idx: Graph, x: string)
    ensures Attach(idx, x, {}) == idx
  {
    var r := Attach(idx, x, {});
    assert forall k :: k in r ==> r[k] == idx[k];
  }

  /** Adding one more key to the attached set is one more `idx[d].add(x)`. */
  lemma AttachStep(idx: Graph, x: string, keys: set<string>, d: string)
    ensures Attach(idx, x, keys + {d})
         == Attach(idx, x, keys)[d := Succ(Attach(idx, x, keys), d) + {x}]
  {
    var a := Attach(idx, x, keys);
    var r := Attach(idx, x, keys + {d});
    var s := a[d := Succ(a, d) + {x}];
    assert r.Keys == s.Keys;
    forall k | k in r ensures r[k] == s[k] {
      if k != d {
        assert k in a;
      }
    }
  }

  /** Giving a new node `f` the successors `D` adds `f` to the reverse entry of each of `D`. */
  lemma TransposeExtend(g: Graph, f: string, D: set<string>)
    requires f !in g
    ensures Transpose(g[f := D]) == Attach(Transpose(g), f, D)
  {
    var g' := g[f := D];
    assert Targets(g') == Targets(g) + D by {
      forall b | b in Targets(g') ensures b in Targets(g) + D {
        var a :| a in g' && b in g'[a];
        if a != f { assert b in g[a]; }
      }
      forall b | b in Targets(g) ensures b in Targets(g') {
        var a :| a in g && b in g[a];
        assert a in g' && b in g'[a];
      }
      forall b | b in D ensures b in Targets(g') {
        assert f in g' && b in g'[f];
      }
    }
    forall b | b in Targets(g')
      ensures Importers(g', b) == Succ(Transpose(g), b) + (if b in D then {f} else {})
    {
      assert Importers(g', b) == Importers(g, b) + (if b in D then {f} else {});
    }
  }

  /** `p` follows edges of `g` from its first node to its last. */
  ghost predicate IsPath(g: Graph, p: seq<string>) {
    forall i :: 0 <= i < |p| - 1 ==> p[i + 1] in Succ(g, p[i])
  }

  /** `t` is reached from `s` by one or more edges. */
  ghost predicate Reachable(g: Graph, s: string, t: string) {
    exists p :: |p| >= 2 && p[0] == s && p[|p| - 1] == t && IsPath(g, p)
  }

  /** All nodes reachable from `s` by one or more edges. */
  ghost function Closure(g: Graph, s: string): set<string> {
    set t | t in Targets(g) && Reachable(g, s, t)
  }

  lemma ReachEdge(g: Graph, a: string, b: string)
    requires b in Succ(g, a)
    ensures Reachable(g, a, b)
  {
    assert IsPath(g, [a, b]);
  }

  lemma ReachPrepend(g: Graph, a: string, b: string, t: string)
    requires b in Succ(g, a) && Reachable(g, b, t)
    ensures Reachable(g, a, t)
  {
    var p :| |p| >= 2 && p[0] == b && p[|p| - 1] == t && IsPath(g, p);
    var q := [a] + p;
    assert forall i :: 1 <= i < |q| ==> q[i] == p[i - 1];
    assert IsPath(g, q);
  }

  /** Whatever is reachable ends with an edge, so lies among the targets. */
  lemma ReachableIsTarget(g: Graph, s: string, t: string)
    requires Reachable(g, s, t)
    ensures t in Targets(g) && t in Closure(g, s)
  {
    var p :| |p| >= 2 && p[0] == s && p[|p| - 1] == t && IsPath(g, p);
    var a := p[|p| - 2];
    assert t in Succ(g, a);
  }

  /** A node that is not a key of the graph reaches nothing. */
  lemma ClosureOfAbsent(g: Graph, s: string)
    requires s !in g
    ensures Closure(g, s) == {}
  {
    ClosedSetHoldsReach(g, s, {});
  }

  /**
   * A set holding the successors of `s` and closed under successors holds
   * everything reachable from `s`.
   */
  lemma ClosedSetHoldsReach(g: Graph, s: string, S: set<string>)
    requires Succ(g, s) <= S
    requires forall y :: y in S ==> Succ(g, y) <= S
    ensures forall t :: Reachable(g, s, t) ==> t in S
  {
    forall t | Reachable(g, s, t) ensures t in S {
      var p :| |p| >= 2 && p[0] == s && p[|p| - 1] == t && IsPath(g, p);
      var i := 1;
      while i < |p| - 1
        invariant 1 <= i <= |p| - 1
        invariant p[i] in S
      {
        assert p[i + 1] in Succ(g, p[i]);
        i := i + 1;
      }
    }
  }

  lemma SymmetricFlip(g: Graph, r: Graph)
    requires Symmetric(g, r)
    ensures Symmetric(r, g)
  {
  }

  /** A node something is reachable from has an outgoing edge, so is a key. */
  lemma ReachFromKey(g: Graph, s: string, t: string)
    requires Reachable(g, s, t)
    ensures s in g
  {
    var p :| |p| >= 2 && p[0] == s && p[|p| - 1] == t && IsPath(g, p);
    assert p[1] in Succ(g, p[0]);
  }

  /** Reachability in `g` is reachability backwards in a graph symmetric to it. */
  lemma ReachReversed(g: Graph, r: Graph, a: string, b: string)
    requires Symmetric(g, r)
    requires Reachable(g, a, b)
    ensures Reachable(r, b, a)
  {
    var p :| |p| >= 2 && p[0] == a && p[|p| - 1] == b && IsPath(g, p);
    var q := seq(|p|, i requires 0 <= i < |p| => p[|p| - 1 - i]);
    forall i | 0 <= i < |q| - 1 ensures q[i + 1] in Succ(r, q[i]) {
      var j := |p| - 2 - i;
      assert p[j + 1] in Succ(g, p[j]);
    }
    assert IsPath(r, q);
  }

  lemma SmallerRemainder(N: set<string>, V: set<string>, V': set<string>, x: string)
    requires V <= V' && x in N && x in V' && x !in V
    ensures |N - V'| < |N - V|
  {
    var A, B := N - V', N - V;
    assert A <= B && x in B - A;
    assert B == A + (B - A) && A !! (B - A);
    assert |B - A| >= 1;
  }

  /**
   * One call of the recursive search: `found` is what the call returns and
   * `visited'` the shared visited set after it. Every node the call newly
   * visits has all its successors in `found`, and everything found is
   * reachable from `node`.
   */
  method Collect(g: Graph, node: string, visited: set<string>)
    returns (found: set<string>, visited': set<string>)
    ensures visited <= visited' && node in visited'
    ensures found <= visited'
    ensures forall y :: y in visited' - visited ==> Succ(g, y) <= found
    ensures forall t :: t in found ==> Reachable(g, node, t)
    decreases |Nodes(g) - visited|
  {
    if node in visited {
      return {}, visited;
    }
    visited' := visited + {node};
    var direct := Succ(g, node);
    found := direct;
    forall t | t in direct ensures Reachable(g, node, t) {
      ReachEdge(g, node, t);
    }
    var todo := direct;
    while todo != {}
      invariant todo <= direct
      invariant visited + {node} <= visited'
      invariant direct <= found
      invariant found <= visited' + todo
      invariant forall y :: y in visited' - visited ==> Succ(g, y) <= found
      invariant forall t :: t in found ==> Reachable(g, node, t)
      decreases todo
    {
      var d :| d in todo;
      SmallerRemainder(Nodes(g), visited, visited', node);
      var sub, after := Collect(g, d, visited');
      forall t | t in sub ensures Reachable(g, node, t) {
        ReachPrepend(g, node, d, t);
      }
      found := found + sub;
      visited' := after;
      todo := todo - {d};
    }
  }

  /** A search from an empty visited set returns exactly the nodes reachable from `start`. */
  method AllReachable(g: Graph, start: string) returns (r: set<string>)
    ensures r == Closure(g, start)
  {
    var visited;
    r, visited := Collect(g, start, {});
    forall t | t in r ensures t in Closure(g, start) {
      ReachableIsTarget(g, start, t);
    }
    ClosedSetHoldsReach(g, start, r);
  }
}
