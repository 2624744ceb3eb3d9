/**
 * The handful of Python string operations the analyzer relies on, over
 * `string` (a sequence of characters): `startswith`, `endswith`, the `in`
 * substring test, `split` on one character, `join`, `replace` of one
 * character and an ASCII `lower`.
 */
module Text {

  /** Python's `s.startswith(pre)`. */
  predicate StartsWith(s: string, pre: string) {
    |pre| <= |s| && s[..|pre|] == pre
  }

  /** Python's `s.endswith(suf)`. */
  predicate EndsWith(s: string, suf: string) {
    |suf| <= |s| && s[|s| - |suf|..] == suf
  }

  /** `sub` stands in `s` starting at index `i`. */
  ghost predicate OccursAt(s: string, sub: string, i: int) {
    0 <= i && i + |sub| <= |s| && s[i..i + |sub|] == sub
  }

  /** The reference meaning of Python's `sub in s`: some index where `sub` starts. */
  ghost predicate Occurs(sub: string, s: string) {
    exists i :: OccursAt(s, sub, i)
  }

  lemma OccursShift(s: string, sub: string)
    requires |s| > 0 && !StartsWith(s, sub)
    ensures Occurs(sub, s) <==> Occurs(sub, s[1..])
  {
    if Occurs(sub, s) {
      var i :| OccursAt(s, sub, i);
      assert i != 0;
      assert s[1..][i - 1..i - 1 + |sub|] == s[i..i + |sub|];
      assert OccursAt(s[1..], sub, i - 1);
    }
    if Occurs(sub, s[1..]) {
      var i :| OccursAt(s[1..], sub, i);
      assert s[i + 1..i + 1 + |sub|] == s[1..][i..i + |sub|];
      assert OccursAt(s, sub, i + 1);
    }
  }

  /** Python's `sub in s`, computed by scanning the start positions left to right. */
  function Contains(s: string, sub: string): (r: bool)
    ensures r <==> Occurs(sub, s)
  {
    if StartsWith(s, sub) then
      assert OccursAt(s, sub, 0);
      true
    else if |s| == 0 then
      false
    else
      OccursShift(s, sub);
      Contains(s[1..], sub)
  }

  /** Python's `any(p in s for p in patterns)`. */
  function AnyOccurs(patterns: seq<string>, s: string): (r: bool)
    ensures r <==> exists p :: p in patterns && Occurs(p, s)
  {
    if patterns == [] then false
    else Contains(s, patterns[0]) || AnyOccurs(patterns[1..], s)
  }

  /** Python's `sep.join(parts)`. */
  function Join(parts: seq<string>, sep: string): string {
    if |parts| == 0 then ""
    else if |parts| == 1 then parts[0]
    else parts[0] + sep + Join(parts[1..], sep)
  }

  /** Python's `s.split(sep)` for a one-character separator: never empty, no part holds `sep`. */
  function Split(s: string, sep: char): (parts: seq<string>)
    ensures |parts| >= 1
    ensures forall k :: 0 <= k < |parts| ==> sep !in parts[k]
  {
    if |s| == 0 then [""]
    else
      var rest := Split(s[1..], sep);
      if s[0] == sep then [""] + rest
      else [[s[0]] + rest[0]] + rest[1..]
  }

  /** Splitting on `sep` and joining with `sep` gives the text back. */
  lemma {:induction false} JoinSplit(s: string, sep: char)
    ensures Join(Split(s, sep), [sep]) == s
  {
    if |s| > 0 {
      JoinSplit(s[1..], sep);
      var rest := Split(s[1..], sep);
      if s[0] != sep {
        var parts := Split(s, sep);
        if |rest| > 1 {
          assert parts[1..] == rest[1..];
          assert Join(rest, [sep]) == rest[0] + [sep] + Join(rest[1..], [sep]);
        }
      }
    }
  }

  /** Joining parts that are free of `sep` and splitting again gives the parts back. */
  lemma {:induction false} SplitJoin(parts: seq<string>, sep: char)
    requires |parts| >= 1
    requires forall k :: 0 <= k < |parts| ==> sep !in parts[k]
    ensures Split(Join(parts, [sep]), sep) == parts
  {
    if |parts| == 1 {
      SplitFree(parts[0], sep);
    } else {
      var tail := parts[1..];
      assert forall k :: 0 <= k < |tail| ==> tail[k] == parts[k + 1];
      SplitJoin(tail, sep);
      assert sep !in parts[0];
      SplitPrefix(parts[0], sep, Join(tail, [sep]));
      assert Join(parts, [sep]) == parts[0] + [sep] + Join(tail, [sep]);
      assert [parts[0]] + tail == parts;
    }
  }

  lemma {:induction false} SplitFree(s: string, sep: char)
    requires sep !in s
    ensures Split(s, sep) == [s]
  {
    if |s| > 0 {
      SplitFree(s[1..], sep);
      assert s[0] != sep;
      assert [s[0]] + s[1..] == s;
    }
  }

  lemma {:induction false} SplitPrefix(a: string, sep: char, b: string)
    requires sep !in a
    ensures Split(a + [sep] + b, sep) == [a] + Split(b, sep)
  {
    if |a| == 0 {
      assert a + [sep] + b == [sep] + b;
      assert ([sep] + b)[1..] == b;
    } else {
      assert (a + [sep] + b)[1..] == a[1..] + [sep] + b;
      SplitPrefix(a[1..], sep, b);
      assert [a[0]] + a[1..] == a;
    }
  }

  /** Python's `s.replace(old, new)` for one character replaced by another. */
  function Replace(s: string, from: char, to: char): (r: string)
    ensures |r| == |s|
    ensures forall i :: 0 <= i < |s| ==> r[i] == if s[i] == from then to else s[i]
  {
    if |s| == 0 then ""
    else [if s[0] == from then to else s[0]] + Replace(s[1..], from, to)
  }

  /**
   * Splitting a dotted name and joining with `/` (absolute resolution) is the
   * same text as replacing the dots by `/` (relative resolution).
   */
  lemma {:induction false} JoinSplitIsReplace(s: string)
    ensures Join(Split(s, '.'), "/") == Replace(s, '.', '/')
  {
    if |s| > 0 {
      JoinSplitIsReplace(s[1..]);
      var rest := Split(s[1..], '.');
      if s[0] != '.' {
        var parts := Split(s, '.');
        if |rest| > 1 {
          assert parts[1..] == rest[1..];
          assert Join(rest, "/") == rest[0] + "/" + Join(rest[1..], "/");
        }
      }
    }
  }

  /** ASCII lower-casing of one character. */
  function LowerChar(c: char): char {
    if 'A' <= c <= 'Z' then (c as int + 32) as char else c
  }

  /** Python's `s.lower()`, restricted to ASCII letters. */
  function Lower(s: string): (r: string)
    ensures |r| == |s|
    ensures forall i :: 0 <= i < |s| ==> r[i] == LowerChar(s[i])
  {
    if |s| == 0 then "" else [LowerChar(s[0])] + Lower(s[1..])
  }
}
