/**
 * The part of Python's `pathlib` the analyzer uses, on POSIX path strings:
 * `str(Path(dir) / name)`, `Path(p).parent` and repeated `.parent`.
 * Project files are named relative to the project root, so the root itself
 * is `"."`.
 */
module Paths {
  import Text

  /** `str(Path(dir) / name)`: joining onto the root `"."` (or `""`) gives just the name. */
  function Join(dir: string, name: string): string {
    if dir == "" || dir == "." then name
    else if Text.EndsWith(dir, "/") then dir + name
    else dir + "/" + name
  }

  /** Index of the last `/` in `p`, or -1 when there is none. */
  function LastSlash(p: string): (k: int)
    ensures -1 <= k < |p|
    ensures k >= 0 ==> p[k] == '/'
    ensures forall j :: k < j < |p| ==> p[j] != '/'
  {
    if |p| == 0 then -1
    else if p[|p| - 1] == '/' then |p| - 1
    else LastSlash(p[..|p| - 1])
  }

  /** `str(Path(p).parent)`: everything before the last `/`, or `"."` for a bare name. */
  function Parent(p: string): string {
    var k := LastSlash(p);
    if k < 0 then "." else if k == 0 then "/" else p[..k]
  }

  /** `Path(p)` followed by `.parent` taken `n` times. */
  function Ancestor(p: string, n: nat): string
    decreases n
  {
    if n == 0 then p else Ancestor(Parent(p), n - 1)
  }

  /** One more `.parent` on top of `n` of them. */
  lemma {:induction false} AncestorLast(p: string, n: nat)
    ensures Ancestor(p, n + 1) == Parent(Ancestor(p, n))
    decreases n
  {
    if n > 0 {
      AncestorLast(Parent(p), n - 1);
    }
  }

  /** Number of `/` separators in `p`. */
  function Slashes(p: string): nat {
    if |p| == 0 then 0
    else Slashes(p[..|p| - 1]) + (if p[|p| - 1] == '/' then 1 else 0)
  }

  lemma {:induction false} SlashesBeforeLast(p: string)
    requires LastSlash(p) >= 0
    ensures Slashes(p) == Slashes(p[..LastSlash(p)]) + 1
  {
    if p[|p| - 1] != '/' {
      var q := p[..|p| - 1];
      assert LastSlash(p) == LastSlash(q);
      SlashesBeforeLast(q);
      assert q[..LastSlash(q)] == p[..LastSlash(p)];
    }
  }

  /** Ascending from the root stays at the root: `Path(".").parent` is `"."`. */
  lemma {:induction false} AncestorOfRoot(n: nat)
    ensures Ancestor(".", n) == "."
  {
    if n > 0 {
      assert LastSlash(".") == -1;
      AncestorOfRoot(n - 1);
    }
  }

  /**
   * A relative path with `k` separators reaches the root after `k + 1`
   * parents, and any further `.parent` stays there.
   */
  lemma {:induction false} AncestorReachesRoot(p: string, n: nat)
    requires !Text.StartsWith(p, "/")
    requires n > Slashes(p)
    ensures Ancestor(p, n) == "."
  {
    var k := LastSlash(p);
    if k < 0 {
      AncestorOfRoot(n - 1);
    } else {
      assert k != 0;
      SlashesBeforeLast(p);
      var q := p[..k];
      assert Parent(p) == q;
      assert !Text.StartsWith(q, "/") by {
        assert q[..1] == p[..1];
      }
      AncestorReachesRoot(q, n - 1);
    }
  }
}
