/**
 * The pure core of `git_utils.py`: the extension filter of
 * `get_changed_files`, the symbol lookup `_get_symbol_at_line`, and the
 * walk over the output of `git diff -U0` in `get_changed_symbols`, which
 * tracks the current `+++ b/<file>.py` header, reads each `@@` hunk header
 * and files every added line under the definition that covers it.
 *
 * Running git, reading files and parsing them with `ast` are inputs here:
 * the command's standard output as a string, the set of relative paths
 * that exist under the project root, and for each readable file its
 * function and class definitions in `ast.walk` order.
 */
module GitUtils {
  import opened Wrappers
  import Text

  // ---------------------------------------------------------------------
  // get_changed_files: strip, split on newlines, keep by extension and existence
  // ---------------------------------------------------------------------

  /** Characters `str.strip()` removes, restricted to ASCII. */
  predicate IsSpace(c: char) {
    c == ' ' || (9 <= c as int <= 13) || (28 <= c as int <= 31)
  }

  function TrimStart(s: string): (r: string)
    ensures |r| <= |s| && r == s[|s| - |r|..]
    ensures r == [] || !IsSpace(r[0])
    ensures forall i :: 0 <= i < |s| - |r| ==> IsSpace(s[i])
  {
    if s != [] && IsSpace(s[0]) then TrimStart(s[1..]) else s
  }

  function TrimEnd(s: string): (r: string)
    ensures |r| <= |s| && r == s[..|r|]
    ensures r == [] || !IsSpace(r[|r| - 1])
    ensures forall i :: |r| <= i < |s| ==> IsSpace(s[i])
  {
    if s != [] && IsSpace(s[|s| - 1]) then TrimEnd(s[..|s| - 1]) else s
  }

  /** `str.strip()`: drops leading and trailing white space, nothing else. */
  function Strip(s: string): (r: string)
    ensures r == [] || (!IsSpace(r[0]) && !IsSpace(r[|r| - 1]))
    ensures |s| - |TrimStart(s)| + |r| <= |s|
    ensures r == s[|s| - |TrimStart(s)|..|s| - |TrimStart(s)| + |r|]
    ensures forall i :: 0 <= i < |s| && !(|s| - |TrimStart(s)| <= i < |s| - |TrimStart(s)| + |r|) ==> IsSpace(s[i])
  {
    TrimEnd(TrimStart(s))
  }

  lemma {:induction false} TrimStartBlank(s: string)
    requires forall i :: 0 <= i < |s| ==> IsSpace(s[i])
    ensures TrimStart(s) == []
  {
    if s != [] {
      TrimStartBlank(s[1..]);
    }
  }

  /** The guard of the list comprehension: some extension ends the name, and the file exists. */
  predicate Kept(f: string, exts: seq<string>, present: set<string>) {
    (exists e :: e in exts && Text.EndsWith(f, e)) && f in present
  }

  /** The list comprehension of `get_changed_files`: keeps the names that pass, in order. */
  function KeepChanged(names: seq<string>, exts: seq<string>, present: set<string>): (r: seq<string>)
    ensures |r| <= |names|
    ensures forall f :: f in r <==> f in names && Kept(f, exts, present)
  {
    if names == [] then []
    else
      var rest := KeepChanged(names[1..], exts, present);
      assert forall f :: f in names <==> f == names[0] || f in names[1..];
      if Kept(names[0], exts, present) then [names[0]] + rest else rest
  }

  /**
   * The filter keeps order and repetitions: it works name by name. With the
   * membership and length clauses of `KeepChanged` (a single name is kept
   * as itself or dropped), this pins down the whole result.
   */
  lemma {:induction false} KeepChangedAppend(a: seq<string>, b: seq<string>, exts: seq<string>, present: set<string>)
    ensures KeepChanged(a + b, exts, present) == KeepChanged(a, exts, present) + KeepChanged(b, exts, present)
  {
    if a != [] {
      assert (a + b)[1..] == a[1..] + b;
      KeepChangedAppend(a[1..], b, exts, present);
    }
    else {
      assert a + b == b;
    }
  }

  /** `get_changed_files` after git answered: `file_extensions` defaults to `[".py"]` when absent. */
  function ChangedFiles(stdout: string, exts: Option<seq<string>>, present: set<string>): seq<string> {
    var extensions := if exts.None? then [".py"] else exts.value;
    KeepChanged(Text.Split(Strip(stdout), '\n'), extensions, present)
  }

  /** A name is kept exactly when it is a line of the stripped output that passes the filter. */
  lemma ChangedFilesMembership(stdout: string, exts: Option<seq<string>>, present: set<string>, f: string)
    ensures f in ChangedFiles(stdout, exts, present) <==>
      f in Text.Split(Strip(stdout), '\n') &&
      (exists e :: e in (if exts.None? then [".py"] else exts.value) && Text.EndsWith(f, e)) &&
      f in present
  {
  }

  /** The default keeps only names ending in `.py`. */
  lemma DefaultKeepsPython(stdout: string, present: set<string>, f: string)
    requires f in ChangedFiles(stdout, None, present)
    ensures Text.EndsWith(f, ".py") && f in present
  {
  }

  /** An explicitly empty extension list keeps nothing (`is None` does not apply). */
  lemma NoExtensionsKeepNothing(stdout: string, present: set<string>)
    ensures ChangedFiles(stdout, Some([]), present) == []
  {
    KeepNone(Text.Split(Strip(stdout), '\n'), present);
  }

  lemma {:induction false} KeepNone(names: seq<string>, present: set<string>)
    ensures KeepChanged(names, [], present) == []
  {
    if names != [] {
      KeepNone(names[1..], present);
    }
  }

  /**
   * Empty (or all white-space) output splits into the single empty line,
   * which no non-empty extension ends.
   */
  lemma {:induction false} BlankOutputKeepsNothing(stdout: string, exts: Option<seq<string>>, present: set<string>)
    requires forall i :: 0 <= i < |stdout| ==> IsSpace(stdout[i])
    requires exts.Some? ==> forall e :: e in exts.value ==> e != []
    ensures ChangedFiles(stdout, exts, present) == []
  {
    TrimStartBlank(stdout);
    assert Strip(stdout) == [];
    assert Text.Split([], '\n') == [""];
    var extensions := if exts.None? then [".py"] else exts.value;
    assert !Kept("", extensions, present);
  }

  // ---------------------------------------------------------------------
  // _get_symbol_at_line
  // ---------------------------------------------------------------------

  /** A function, async function or class definition: name, first line and optional last line. */
  datatype Definition = Definition(name: string, lineno: int, endLineno: Option<int>)

  /** `node.end_lineno or node.lineno`: a missing or zero end line falls back to the first line. */
  function EndOf(d: Definition): int {
    if d.endLineno.None? || d.endLineno.value == 0 then d.lineno else d.endLineno.value
  }

  predicate Covers(d: Definition, line: int) {
    d.lineno <= line <= EndOf(d)
  }

  /** The first definition, in walk order, whose line range contains `line`. */
  function SymbolAt(defs: seq<Definition>, line: int): Option<string> {
    if defs == [] then None
    else if Covers(defs[0], line) then Some(defs[0].name)
    else SymbolAt(defs[1..], line)
  }

  /** No name when no definition covers the line; otherwise the name of the first that does. */
  lemma {:induction false} SymbolAtFirst(defs: seq<Definition>, line: int)
    ensures SymbolAt(defs, line).None? <==> forall i :: 0 <= i < |defs| ==> !Covers(defs[i], line)
    ensures SymbolAt(defs, line).Some? ==>
      exists i :: 0 <= i < |defs| && Covers(defs[i], line) && defs[i].name == SymbolAt(defs, line).value &&
                  forall j :: 0 <= j < i ==> !Covers(defs[j], line)
  {
    if defs != [] && !Covers(defs[0], line) {
      SymbolAtFirst(defs[1..], line);
      assert forall i :: 1 <= i < |defs| ==> defs[i] == defs[1..][i - 1];
      if SymbolAt(defs[1..], line).Some? {
        FirstCoverShift(defs, line, SymbolAt(defs[1..], line).value);
      }
    }
  }

  /** A first covering definition of the tail, behind a head that does not cover, is first in the whole list. */
  lemma FirstCoverShift(defs: seq<Definition>, line: int, name: string)
    requires defs != [] && !Covers(defs[0], line)
    requires exists i :: 0 <= i < |defs[1..]| && Covers(defs[1..][i], line) && defs[1..][i].name == name &&
                         forall j :: 0 <= j < i ==> !Covers(defs[1..][j], line)
    ensures exists i :: 0 <= i < |defs| && Covers(defs[i], line) && defs[i].name == name &&
                        forall j :: 0 <= j < i ==> !Covers(defs[j], line)
  {
    var i :| 0 <= i < |defs[1..]| && Covers(defs[1..][i], line) && defs[1..][i].name == name &&
             forall j :: 0 <= j < i ==> !Covers(defs[1..][j], line);
    assert Covers(defs[i + 1], line);
    assert forall j :: 1 <= j < i + 1 ==> defs[j] == defs[1..][j - 1];
  }

  /**
   * `_get_symbol_at_line` on a file: a file that cannot be read or parsed
   * (no entry in `trees`) gives `None` for every line.
   */
  function SymbolAtFile(trees: map<string, seq<Definition>>, file: string, line: int): Option<string> {
    if file in trees then SymbolAt(trees[file], line) else None
  }

  /** `if symbol:` in the walk: a found name counts only when it is a non-empty string. */
  predicate Names(trees: map<string, seq<Definition>>, file: string, line: int, sym: string) {
    SymbolAtFile(trees, file, line) == Some(sym) && sym != ""
  }

  /** A symbol is named at a line exactly when a covering definition of the file has that name. */
  lemma NamesHasCoveringDefinition(trees: map<string, seq<Definition>>, file: string, line: int, sym: string)
    requires Names(trees, file, line, sym)
    ensures file in trees
    ensures exists d :: d in trees[file] && Covers(d, line) && d.name == sym
  {
    SymbolAtFirst(trees[file], line);
    var i :| 0 <= i < |trees[file]| && Covers(trees[file][i], line) && trees[file][i].name == sym &&
             forall j :: 0 <= j < i ==> !Covers(trees[file][j], line);
    assert trees[file][i] in trees[file];
  }

  /** Nested definitions: `ast.walk` lists the outer one first, so the outer name is the one returned. */
  lemma OuterDefinitionWins(outer: Definition, inner: Definition, rest: seq<Definition>, line: int)
    requires Covers(inner, line)
    requires outer.lineno <= inner.lineno && EndOf(inner) <= EndOf(outer)
    ensures SymbolAt([outer, inner] + rest, line) == Some(outer.name)
  {
  }

  // ---------------------------------------------------------------------
  // The two header lines of a `git diff -U0` listing
  // ---------------------------------------------------------------------

  /**
   * `re.match(r'\+\+\+ b/(.+\.py)$', line)`: the path after `+++ b/`, when
   * it has at least one character before a final `.py`.  Lines come from
   * splitting on newlines, so `.` and `$` need no newline handling.
   */
  function PlusPlusFile(line: string): (r: Option<string>)
    ensures r.Some? <==> Text.StartsWith(line, "+++ b/") && |line| >= 10 && Text.EndsWith(line, ".py")
    ensures r.Some? ==> line == "+++ b/" + r.value && |r.value| >= 4 && Text.EndsWith(r.value, ".py")
  {
    if Text.StartsWith(line, "+++ b/") && |line| >= 10 && Text.EndsWith(line, ".py") then
      assert line == line[..6] + line[6..];
      Some(line[6..])
    else None
  }

  predicate IsDigit(c: char) { '0' <= c <= '9' }

  predicate AllDigits(s: string) { forall i :: 0 <= i < |s| ==> IsDigit(s[i]) }

  /** The decimal value of a digit string, as `int()` reads it (leading zeros allowed). */
  function Value(ds: string): nat
    requires AllDigits(ds)
  {
    if ds == [] then 0 else Value(ds[..|ds| - 1]) * 10 + (ds[|ds| - 1] as int - '0' as int)
  }

  /** How many digits `\d+` takes at the front of `s`. */
  function LeadingDigits(s: string): (n: nat)
    ensures n <= |s| && AllDigits(s[..n])
    ensures n == |s| || !IsDigit(s[n])
  {
    if s != [] && IsDigit(s[0]) then
      var n := 1 + LeadingDigits(s[1..]);
      assert s[..n] == [s[0]] + s[1..][..n - 1];
      n
    else 0
  }

  /** `\d+` followed by the rest of the line: the number read and what follows it. */
  function Number(s: string): (r: Option<(nat, string)>)
    ensures r.Some? ==> |r.value.1| < |s| && r.value.1 == s[|s| - |r.value.1|..]
  {
    var n := LeadingDigits(s);
    if n == 0 then None else Some((Value(s[..n]), s[n..]))
  }

  /** `(?:,(\d+))?`: a count when a comma and at least one digit follow, otherwise nothing taken. */
  function OptionalCount(s: string): (r: (Option<nat>, string))
    ensures |r.1| <= |s|
  {
    if s != [] && s[0] == ',' then
      match Number(s[1..])
      case Some((v, rest)) => (Some(v), rest)
      case None => (None, s)
    else (None, s)
  }

  /** The added-line range of a hunk: its first line and how many lines it covers. */
  datatype Hunk = Hunk(start: nat, count: nat)

  /**
   * `re.match(r'@@ -\d+(?:,\d+)? \+(\d+)(?:,(\d+))? @@', line)` with
   * `new_count` defaulting to 1 when its group is absent.  Each `\d+` is
   * maximal here, which is the only way the pattern can match: a shorter
   * run of digits would leave a digit where `,` or a space is required.
   */
  function ParseHunk(line: string): (r: Option<Hunk>)
    ensures r.Some? ==> Text.StartsWith(line, "@@ -")
  {
    if !Text.StartsWith(line, "@@ -") then None
    else match Number(line[4..])
      case None => None
      case Some((_, s1)) => NewRange(OptionalCount(s1).1)
  }

  /** The new-side part ` +<start>[,<count>] @@` of a hunk header. */
  function NewRange(s: string): Option<Hunk> {
    if !Text.StartsWith(s, " +") then None
    else match Number(s[2..])
      case None => None
      case Some((start, s3)) =>
        var (count, s4) := OptionalCount(s3);
        if !Text.StartsWith(s4, " @@") then None
        else Some(Hunk(start, if count.Some? then count.value else 1))
  }

  /** The decimal digits of a natural number, as `str()` writes it. */
  function Show(n: nat): (ds: string)
    ensures |ds| >= 1 && AllDigits(ds)
  {
    if n < 10 then [('0' as int + n) as char]
    else Show(n / 10) + [('0' as int + n % 10) as char]
  }

  lemma {:induction false} ValueShow(n: nat)
    ensures Value(Show(n)) == n
  {
    if n >= 10 {
      var ds := Show(n);
      assert ds[..|ds| - 1] == Show(n / 10);
      ValueShow(n / 10);
    }
  }

  lemma {:induction false} LeadingDigitsOf(ds: string, rest: string)
    requires AllDigits(ds)
    requires rest == [] || !IsDigit(rest[0])
    ensures LeadingDigits(ds + rest) == |ds|
  {
    if ds != [] {
      assert (ds + rest)[1..] == ds[1..] + rest;
      LeadingDigitsOf(ds[1..], rest);
    }
  }

  lemma NumberShow(n: nat, rest: string)
    requires rest == [] || !IsDigit(rest[0])
    ensures Number(Show(n) + rest) == Some((n, rest))
  {
    var s := Show(n) + rest;
    LeadingDigitsOf(Show(n), rest);
    assert s[..|Show(n)|] == Show(n);
    assert s[|Show(n)|..] == rest;
    ValueShow(n);
  }

  /** The optional `,<count>` part of a header as git writes it. */
  function CountText(c: Option<nat>): string {
    if c.None? then "" else "," + Show(c.value)
  }

  lemma OptionalCountOf(c: Option<nat>, rest: string)
    requires rest != [] && rest[0] == ' '
    ensures OptionalCount(CountText(c) + rest) == (c, rest)
  {
    var s := CountText(c) + rest;
    if c.Some? {
      assert s[0] == ',';
      assert s[1..] == Show(c.value) + rest;
      NumberShow(c.value, rest);
    } else {
      assert s == rest;
    }
  }

  /** A hunk header as `git diff` writes it, followed by any trailing text. */
  function HunkHeader(oldStart: nat, oldCount: Option<nat>, newStart: nat, newCount: Option<nat>, tail: string): string {
    "@@ -" + Show(oldStart) + (CountText(oldCount) + NewSide(newStart, newCount, tail))
  }

  /** The new-side part of a written header, with whatever follows it. */
  function NewSide(newStart: nat, newCount: Option<nat>, tail: string): string {
    " +" + Show(newStart) + (CountText(newCount) + (" @@" + tail))
  }

  lemma {:induction false} NewRangeOf(newStart: nat, newCount: Option<nat>, tail: string)
    ensures NewRange(NewSide(newStart, newCount, tail)) ==
            Some(Hunk(newStart, if newCount.Some? then newCount.value else 1))
  {
    var s4 := " @@" + tail;
    var s3 := CountText(newCount) + s4;
    var s := NewSide(newStart, newCount, tail);
    assert s[..2] == " +";
    assert s[2..] == Show(newStart) + s3;
    if newCount.Some? {
      assert s3[0] == ',';
    } else {
      assert s3 == s4;
    }
    NumberShow(newStart, s3);
    OptionalCountOf(newCount, s4);
    assert s4[..3] == " @@";
  }

  lemma HeaderSplits(oldStart: nat, oldCount: Option<nat>, s2: string, line: string)
    requires line == "@@ -" + Show(oldStart) + (CountText(oldCount) + s2)
    ensures Text.StartsWith(line, "@@ -")
    ensures line[4..] == Show(oldStart) + (CountText(oldCount) + s2)
  {
    assert line[..4] == "@@ -";
  }

  lemma OldRangeOf(oldStart: nat, oldCount: Option<nat>, s2: string)
    requires s2 != [] && s2[0] == ' '
    ensures Number(Show(oldStart) + (CountText(oldCount) + s2)) == Some((oldStart, CountText(oldCount) + s2))
    ensures OptionalCount(CountText(oldCount) + s2).1 == s2
  {
    var s1 := CountText(oldCount) + s2;
    if oldCount.Some? {
      assert s1[0] == ',';
    } else {
      assert s1 == s2;
    }
    NumberShow(oldStart, s1);
    OptionalCountOf(oldCount, s2);
  }

  /** Reading a written header gives back its new-side start, and its count or the default 1. */
  lemma {:induction false} ParseHunkHeader(oldStart: nat, oldCount: Option<nat>, newStart: nat, newCount: Option<nat>, tail: string)
    ensures ParseHunk(HunkHeader(oldStart, oldCount, newStart, newCount, tail)) ==
            Some(Hunk(newStart, if newCount.Some? then newCount.value else 1))
  {
    var s2 := NewSide(newStart, newCount, tail);
    var line := HunkHeader(oldStart, oldCount, newStart, newCount, tail);
    HeaderSplits(oldStart, oldCount, s2, line);
    OldRangeOf(oldStart, oldCount, s2);
    NewRangeOf(newStart, newCount, tail);
  }

  // ---------------------------------------------------------------------
  // The diff walk of get_changed_symbols
  // ---------------------------------------------------------------------

  /** The walk's variables: `current_file` and `changed_symbols`. */
  datatype WalkState = WalkState(current: Option<string>, changed: map<string, set<string>>)

  /** `current_file`, once set, always has an entry in `changed_symbols`. */
  predicate Tracked(s: WalkState) {
    s.current.Some? ==> s.current.value in s.changed
  }

  function SymbolsOf(changed: map<string, set<string>>, f: string): set<string> {
    if f in changed then changed[f] else {}
  }

  /** The names found at lines `start .. start + n - 1` of `file`, as the inner loop collects them. */
  function RangeSymbols(trees: map<string, seq<Definition>>, file: string, start: int, n: nat): set<string> {
    if n == 0 then {}
    else
      var found := SymbolAtFile(trees, file, start + n - 1);
      RangeSymbols(trees, file, start, n - 1) + (if found.Some? && found.value != "" then {found.value} else {})
  }

  /** A hunk's symbols are exactly the names found at its lines. */
  lemma {:induction false} RangeSymbolsMembership(trees: map<string, seq<Definition>>, file: string, start: int, n: nat, sym: string)
    ensures sym in RangeSymbols(trees, file, start, n) <==>
      exists l :: start <= l < start + n && Names(trees, file, l, sym)
  {
    if n > 0 {
      RangeSymbolsMembership(trees, file, start, n - 1, sym);
      RangeSymbolsStep(trees, file, start, n - 1);
      var last := start + n - 1;
      if sym in RangeSymbols(trees, file, start, n) {
        if !Names(trees, file, last, sym) {
          var l :| start <= l < start + n - 1 && Names(trees, file, l, sym);
        }
      } else {
        forall l | start <= l < start + n ensures !Names(trees, file, l, sym) {
        }
      }
    }
  }

  /** One hunk header under the current file: every covered line's name is added, if the file exists. */
  function HunkStep(present: set<string>, trees: map<string, seq<Definition>>, s: WalkState, h: Hunk): WalkState
    requires s.current.Some?
  {
    var f := s.current.value;
    if f in present then
      WalkState(s.current, s.changed[f := SymbolsOf(s.changed, f) + RangeSymbols(trees, f, h.start, h.count)])
    else s
  }

  /** One line of the diff, as the loop body of `get_changed_symbols` treats it. */
  function LineStep(present: set<string>, trees: map<string, seq<Definition>>, s: WalkState, line: string): WalkState {
    if Text.StartsWith(line, "+++") then
      match PlusPlusFile(line)
      case Some(f) => WalkState(Some(f), if f in s.changed then s.changed else s.changed[f := {}])
      case None => s
    else if Text.StartsWith(line, "@@") && s.current.Some? then
      match ParseHunk(line)
      case Some(h) => HunkStep(present, trees, s, h)
      case None => s
    else s
  }

  /** The state after the first `|lines|` lines of the diff. */
  function Walk(present: set<string>, trees: map<string, seq<Definition>>, lines: seq<string>): WalkState {
    if lines == [] then WalkState(None, map[])
    else LineStep(present, trees, Walk(present, trees, lines[..|lines| - 1]), lines[|lines| - 1])
  }

  /** Line 213: only files with at least one symbol are returned. */
  function NonEmpty(changed: map<string, set<string>>): (r: map<string, set<string>>)
    ensures forall f :: f in r <==> f in changed && changed[f] != {}
    ensures forall f :: f in r ==> r[f] == changed[f]
  {
    map f | f in changed && changed[f] != {} :: changed[f]
  }

  /** `get_changed_symbols` after git answered with `stdout`. */
  function ChangedSymbols(stdout: string, present: set<string>, trees: map<string, seq<Definition>>): map<string, set<string>> {
    NonEmpty(Walk(present, trees, Text.Split(stdout, '\n')).changed)
  }

  /** The inner loop of `get_changed_symbols`: each covered line's name joins the file's set. */
  method AddHunkSymbols(changed: map<string, set<string>>, trees: map<string, seq<Definition>>, f: string, h: Hunk)
    returns (changed': map<string, set<string>>)
    requires f in changed
    ensures changed' == changed[f := changed[f] + RangeSymbols(trees, f, h.start, h.count)]
  {
    changed' := changed;
    assert changed[f] + {} == changed[f];
    assert changed[f := changed[f] + {}] == changed;
    for lineNum := h.start to h.start + h.count
      invariant f in changed'
      invariant changed' == changed[f := changed[f] + RangeSymbols(trees, f, h.start, lineNum - h.start)]
    {
      var symbol := SymbolAtFile(trees, f, lineNum);
      AddHunkSymbolsStep(changed, trees, f, h.start, lineNum - h.start, changed');
      if symbol.Some? && symbol.value != "" {
        changed' := changed'[f := changed'[f] + {symbol.value}];
      }
    }
  }

  /** One turn of the inner loop extends the collected range by one line. */
  lemma AddHunkSymbolsStep(changed: map<string, set<string>>, trees: map<string, seq<Definition>>, f: string,
                           start: int, n: nat, cur: map<string, set<string>>)
    requires f in changed
    requires cur == changed[f := changed[f] + RangeSymbols(trees, f, start, n)]
    ensures var found := SymbolAtFile(trees, f, start + n);
      (if found.Some? && found.value != "" then cur[f := cur[f] + {found.value}] else cur)
        == changed[f := changed[f] + RangeSymbols(trees, f, start, n + 1)]
  {
    var found := SymbolAtFile(trees, f, start + n);
    RangeSymbolsStep(trees, f, start, n);
    if found.Some? && found.value != "" {
      assert changed[f] + RangeSymbols(trees, f, start, n) + {found.value}
          == changed[f] + (RangeSymbols(trees, f, start, n) + {found.value});
    } else {
      assert RangeSymbols(trees, f, start, n) + {} == RangeSymbols(trees, f, start, n);
    }
  }

  lemma RangeSymbolsStep(trees: map<string, seq<Definition>>, f: string, start: int, n: nat)
    ensures RangeSymbols(trees, f, start, n + 1) ==
      RangeSymbols(trees, f, start, n) +
      (if SymbolAtFile(trees, f, start + n).Some? && SymbolAtFile(trees, f, start + n).value != ""
       then {SymbolAtFile(trees, f, start + n).value} else {})
  {
  }

  /** The loop of `get_changed_symbols` (lines 184-213), statement by statement. */
  method GetChangedSymbols(stdout: string, present: set<string>, trees: map<string, seq<Definition>>)
    returns (r: map<string, set<string>>)
    ensures r == ChangedSymbols(stdout, present, trees)
  {
    var lines := Text.Split(stdout, '\n');
    var changedSymbols: map<string, set<string>> := map[];
    var currentFile: Option<string> := None;
    for i := 0 to |lines|
      invariant WalkState(currentFile, changedSymbols) == Walk(present, trees, lines[..i])
      invariant Tracked(WalkState(currentFile, changedSymbols))
    {
      var line := lines[i];
      assert lines[..i + 1] == lines[..i] + [line];
      WalkSnoc(present, trees, lines[..i], line);
      if Text.StartsWith(line, "+++") {
        var m := PlusPlusFile(line);
        if m.Some? {
          currentFile := m;
          if m.value !in changedSymbols {
            changedSymbols := changedSymbols[m.value := {}];
          }
        }
      } else if Text.StartsWith(line, "@@") && currentFile.Some? {
        var m := ParseHunk(line);
        if m.Some? {
          var f := currentFile.value;
          if f in present {
            changedSymbols := AddHunkSymbols(changedSymbols, trees, f, m.value);
          }
        }
      }
    }
    assert lines[..|lines|] == lines;
    r := map f | f in changedSymbols && changedSymbols[f] != {} :: changedSymbols[f];
  }

  /** One line never loses a file or a symbol: `changed_symbols` and its sets only grow. */
  lemma LineStepGrows(present: set<string>, trees: map<string, seq<Definition>>, s: WalkState, line: string)
    ensures s.changed.Keys <= LineStep(present, trees, s, line).changed.Keys
    ensures forall f :: f in s.changed ==> s.changed[f] <= LineStep(present, trees, s, line).changed[f]
  {
    if !Text.StartsWith(line, "+++") && Text.StartsWith(line, "@@") && s.current.Some? && ParseHunk(line).Some? {
      HunkStepGrows(present, trees, s, ParseHunk(line).value);
    }
  }

  lemma HunkStepGrows(present: set<string>, trees: map<string, seq<Definition>>, s: WalkState, h: Hunk)
    requires s.current.Some?
    ensures s.changed.Keys <= HunkStep(present, trees, s, h).changed.Keys
    ensures forall f :: f in s.changed ==> s.changed[f] <= HunkStep(present, trees, s, h).changed[f]
  {
  }

  /** Over any stretch of the diff, files and symbols only accumulate. */
  lemma {:induction false} WalkGrows(present: set<string>, trees: map<string, seq<Definition>>, lines: seq<string>, k: nat)
    requires k <= |lines|
    ensures Walk(present, trees, lines[..k]).changed.Keys <= Walk(present, trees, lines).changed.Keys
    ensures forall f :: f in Walk(present, trees, lines[..k]).changed ==>
      Walk(present, trees, lines[..k]).changed[f] <= Walk(present, trees, lines).changed[f]
  {
    if k < |lines| {
      var init := lines[..|lines| - 1];
      assert lines[..k] == init[..k];
      WalkGrows(present, trees, init, k);
      LineStepGrows(present, trees, Walk(present, trees, init), lines[|lines| - 1]);
    } else {
      assert lines[..k] == lines;
    }
  }

  /** A hunk with a count of zero (a pure deletion) adds nothing. */
  lemma ZeroCountAddsNothing(present: set<string>, trees: map<string, seq<Definition>>, s: WalkState, start: nat)
    requires Tracked(s) && s.current.Some?
    ensures HunkStep(present, trees, s, Hunk(start, 0)) == s
  {
    var f := s.current.value;
    if f in present {
      assert RangeSymbols(trees, f, start, 0) == {};
      assert SymbolsOf(s.changed, f) + {} == s.changed[f];
      assert s.changed[f := SymbolsOf(s.changed, f) + {}] == s.changed;
    }
  }

  /** Every file in the walk's map was named by some `+++ b/<file>.py` line. */
  lemma {:induction false} WalkKeysNamed(present: set<string>, trees: map<string, seq<Definition>>, lines: seq<string>)
    ensures Tracked(Walk(present, trees, lines))
    ensures forall f :: f in Walk(present, trees, lines).changed ==>
      exists i :: 0 <= i < |lines| && PlusPlusFile(lines[i]) == Some(f)
  {
    if lines != [] {
      var init := lines[..|lines| - 1];
      WalkKeysNamed(present, trees, init);
      forall f | f in Walk(present, trees, lines).changed
        ensures exists i :: 0 <= i < |lines| && PlusPlusFile(lines[i]) == Some(f)
      {
        if f in Walk(present, trees, init).changed {
          var i :| 0 <= i < |init| && PlusPlusFile(init[i]) == Some(f);
          assert lines[i] == init[i];
        } else {
          assert PlusPlusFile(lines[|lines| - 1]) == Some(f);
        }
      }
    }
  }

  /** Every recorded symbol of a file names a covering definition at some line, and the file exists. */
  ghost predicate Covered(present: set<string>, trees: map<string, seq<Definition>>, changed: map<string, set<string>>) {
    forall f, sym :: f in changed && sym in changed[f] ==> f in present && exists l :: Names(trees, f, l, sym)
  }

  lemma HunkStepCovered(present: set<string>, trees: map<string, seq<Definition>>, s: WalkState, h: Hunk)
    requires s.current.Some?
    requires Covered(present, trees, s.changed)
    ensures Covered(present, trees, HunkStep(present, trees, s, h).changed)
  {
    forall sym | sym in RangeSymbols(trees, s.current.value, h.start, h.count)
      ensures exists l :: Names(trees, s.current.value, l, sym)
    {
      RangeSymbolsMembership(trees, s.current.value, h.start, h.count, sym);
    }
  }

  lemma LineStepCovered(present: set<string>, trees: map<string, seq<Definition>>, s: WalkState, line: string)
    requires Covered(present, trees, s.changed)
    ensures Covered(present, trees, LineStep(present, trees, s, line).changed)
  {
    if !Text.StartsWith(line, "+++") && Text.StartsWith(line, "@@") && s.current.Some? && ParseHunk(line).Some? {
      HunkStepCovered(present, trees, s, ParseHunk(line).value);
    }
  }

  /**
   * Every symbol recorded for a file is the name of a definition of that
   * file covering some line, and the file exists (which line is pinned down
   * by `WalkSymbolsExact`).
   */
  lemma {:induction false} WalkSymbolsCovered(present: set<string>, trees: map<string, seq<Definition>>, lines: seq<string>)
    ensures Covered(present, trees, Walk(present, trees, lines).changed)
  {
    if lines != [] {
      var init := lines[..|lines| - 1];
      WalkSymbolsCovered(present, trees, init);
      LineStepCovered(present, trees, Walk(present, trees, init), lines[|lines| - 1]);
    }
  }

  /** Without any `+++ b/<file>.py` line, hunk headers are ignored and nothing is returned. */
  lemma {:induction false} NoFileHeaderNoSymbols(present: set<string>, trees: map<string, seq<Definition>>, lines: seq<string>)
    requires forall i :: 0 <= i < |lines| ==> PlusPlusFile(lines[i]).None?
    ensures Walk(present, trees, lines) == WalkState(None, map[])
  {
    if lines != [] {
      var init := lines[..|lines| - 1];
      NoFileHeaderNoSymbols(present, trees, init);
    }
  }

  /** What `get_changed_symbols` returns: non-empty sets of covering names, under files named in the diff that exist. */
  lemma ChangedSymbolsSound(stdout: string, present: set<string>, trees: map<string, seq<Definition>>, f: string)
    requires f in ChangedSymbols(stdout, present, trees)
    ensures ChangedSymbols(stdout, present, trees)[f] != {}
    ensures f in present && f in trees
    ensures exists line :: line in Text.Split(stdout, '\n') && line == "+++ b/" + f
    ensures forall sym :: sym in ChangedSymbols(stdout, present, trees)[f] ==>
      exists l, d :: d in trees[f] && Covers(d, l) && d.name == sym
  {
    var lines := Text.Split(stdout, '\n');
    WalkKeysNamed(present, trees, lines);
    WalkSymbolsCovered(present, trees, lines);
    var i :| 0 <= i < |lines| && PlusPlusFile(lines[i]) == Some(f);
    assert lines[i] in lines;
    var sym0 :| sym0 in ChangedSymbols(stdout, present, trees)[f];
    var l0 :| Names(trees, f, l0, sym0);
    NamesHasCoveringDefinition(trees, f, l0, sym0);
    forall sym | sym in ChangedSymbols(stdout, present, trees)[f]
      ensures exists l, d :: d in trees[f] && Covers(d, l) && d.name == sym
    {
      var l :| Names(trees, f, l, sym);
      NamesHasCoveringDefinition(trees, f, l, sym);
    }
  }

  // ---------------------------------------------------------------------
  // Exactly which symbols the walk as written reports
  // ---------------------------------------------------------------------

  /** `current_file` after `lines`: set by the last `+++` line the regex accepts, and by nothing else. */
  function CurrentAt(lines: seq<string>): Option<string> {
    if lines == [] then None
    else if PlusPlusFile(lines[|lines| - 1]).Some? then PlusPlusFile(lines[|lines| - 1])
    else CurrentAt(lines[..|lines| - 1])
  }

  /** A line `ParseHunk` reads takes the `elif` branch: it starts with `@@` and not with `+++`. */
  lemma HunkLineShape(line: string)
    requires Text.StartsWith(line, "@@ -")
    ensures Text.StartsWith(line, "@@") && !Text.StartsWith(line, "+++")
  {
    assert line[..2] == line[..4][..2];
    assert line[..3][0] == line[..4][0];
  }

  /** Only a `+++` line the regex accepts moves `current_file`. */
  lemma LineStepCurrent(present: set<string>, trees: map<string, seq<Definition>>, s: WalkState, line: string)
    ensures LineStep(present, trees, s, line).current
         == if PlusPlusFile(line).Some? then PlusPlusFile(line) else s.current
  {
    if PlusPlusFile(line).Some? {
      assert line == "+++ b/" + PlusPlusFile(line).value;
      PlusPlusPrefix(line);
    }
  }

  lemma {:induction false} WalkCurrent(present: set<string>, trees: map<string, seq<Definition>>, lines: seq<string>)
    ensures Walk(present, trees, lines).current == CurrentAt(lines)
  {
    if lines != [] {
      var init := lines[..|lines| - 1];
      WalkCurrent(present, trees, init);
      LineStepCurrent(present, trees, Walk(present, trees, init), lines[|lines| - 1]);
    }
  }

  /**
   * What one line adds: a symbol is recorded for `f` afterwards exactly when
   * it was before, or the line is a hunk header read while `f` is the
   * current, existing file and the symbol is named at one of its lines.
   */
  lemma LineStepSymbols(present: set<string>, trees: map<string, seq<Definition>>, s: WalkState, line: string,
                        f: string, sym: string)
    ensures (f in LineStep(present, trees, s, line).changed && sym in LineStep(present, trees, s, line).changed[f])
        <==> (f in s.changed && sym in s.changed[f]) ||
             (ParseHunk(line).Some? && s.current == Some(f) && f in present &&
              sym in RangeSymbols(trees, f, ParseHunk(line).value.start, ParseHunk(line).value.count))
  {
    if ParseHunk(line).Some? {
      HunkLineShape(line);
      if s.current.Some? {
        HunkLine(present, trees, s, line, ParseHunk(line).value);
      }
    }
  }

  /** Line `i` is a hunk header read against the existing file `f`, and `sym` is named at one of its lines. */
  ghost predicate HunkOf(present: set<string>, trees: map<string, seq<Definition>>, lines: seq<string>,
                         i: int, f: string, sym: string) {
    0 <= i < |lines| && ParseHunk(lines[i]).Some? && CurrentAt(lines[..i]) == Some(f) && f in present &&
    sym in RangeSymbols(trees, f, ParseHunk(lines[i]).value.start, ParseHunk(lines[i]).value.count)
  }

  /** Whether line `i` is such a hunk does not depend on the lines after it. */
  lemma HunkOfPrefix(present: set<string>, trees: map<string, seq<Definition>>, lines: seq<string>,
                     n: int, i: int, f: string, sym: string)
    requires 0 <= i < n <= |lines|
    ensures HunkOf(present, trees, lines[..n], i, f, sym) <==> HunkOf(present, trees, lines, i, f, sym)
  {
    assert lines[..n][i] == lines[i] && lines[..n][..i] == lines[..i];
  }

  /** The walk as written records `sym` for `f` exactly when some hunk read against `f` names it. */
  lemma {:induction false} WalkSymbolsExact(present: set<string>, trees: map<string, seq<Definition>>, lines: seq<string>,
                                            f: string, sym: string)
    ensures (f in Walk(present, trees, lines).changed && sym in Walk(present, trees, lines).changed[f])
        <==> exists i :: HunkOf(present, trees, lines, i, f, sym)
  {
    if lines != [] {
      var n := |lines| - 1;
      WalkSymbolsExact(present, trees, lines[..n], f, sym);
      WalkStepSymbols(present, trees, lines, f, sym);
      assert lines == lines[..n] + [lines[n]];
      HunkOfSplit(present, trees, lines[..n], lines[n], f, sym);
    }
  }

  /** A hunk among `init + [line]` is a hunk among `init`, or `line` itself. */
  lemma HunkOfSplit(present: set<string>, trees: map<string, seq<Definition>>, init: seq<string>, line: string,
                    f: string, sym: string)
    ensures (exists i :: HunkOf(present, trees, init + [line], i, f, sym))
        <==> (exists i :: HunkOf(present, trees, init, i, f, sym)) ||
             HunkOf(present, trees, init + [line], |init|, f, sym)
  {
    var lines := init + [line];
    assert lines[..|init|] == init;
    if exists i :: HunkOf(present, trees, init, i, f, sym) {
      var i :| HunkOf(present, trees, init, i, f, sym);
      HunkOfPrefix(present, trees, lines, |init|, i, f, sym);
    }
    if exists i :: HunkOf(present, trees, lines, i, f, sym) {
      var i :| HunkOf(present, trees, lines, i, f, sym);
      if i < |init| {
        HunkOfPrefix(present, trees, lines, |init|, i, f, sym);
      }
    }
  }

  /** The last line of `lines` adds `sym` under `f` exactly when it is a hunk of `f` naming it. */
  lemma WalkStepSymbols(present: set<string>, trees: map<string, seq<Definition>>, lines: seq<string>,
                        f: string, sym: string)
    requires lines != []
    ensures (f in Walk(present, trees, lines).changed && sym in Walk(present, trees, lines).changed[f])
        <==> (f in Walk(present, trees, lines[..|lines| - 1]).changed &&
              sym in Walk(present, trees, lines[..|lines| - 1]).changed[f]) ||
             HunkOf(present, trees, lines, |lines| - 1, f, sym)
  {
    var init := lines[..|lines| - 1];
    WalkCurrent(present, trees, init);
    LineStepSymbols(present, trees, Walk(present, trees, init), lines[|lines| - 1], f, sym);
  }

  /** Added line `l` of the hunk at line `i`, read against the existing file `f`, lies in a definition named `sym`. */
  ghost predicate ReportedAt(present: set<string>, trees: map<string, seq<Definition>>, lines: seq<string>,
                             i: int, l: int, f: string, sym: string) {
    0 <= i < |lines| && ParseHunk(lines[i]).Some? && CurrentAt(lines[..i]) == Some(f) && f in present &&
    ParseHunk(lines[i]).value.start <= l < ParseHunk(lines[i]).value.start + ParseHunk(lines[i]).value.count &&
    Names(trees, f, l, sym)
  }

  /**
   * `get_changed_symbols` reports `sym` under `f` exactly when some hunk
   * header read while `f` is the current file (and `f` exists) has an added
   * line lying in a definition named `sym`.
   */
  lemma ChangedSymbolsExact(stdout: string, present: set<string>, trees: map<string, seq<Definition>>,
                            f: string, sym: string)
    ensures (f in ChangedSymbols(stdout, present, trees) && sym in ChangedSymbols(stdout, present, trees)[f])
        <==> exists i, l :: ReportedAt(present, trees, Text.Split(stdout, '\n'), i, l, f, sym)
  {
    var lines := Text.Split(stdout, '\n');
    var changed := Walk(present, trees, lines).changed;
    assert ChangedSymbols(stdout, present, trees) == NonEmpty(changed);
    WalkSymbolsExact(present, trees, lines, f, sym);
    HunkOfReported(present, trees, lines, f, sym);
  }

  /** A hunk of `f` naming `sym` is the same as a line of such a hunk lying in a definition named `sym`. */
  lemma HunkOfReported(present: set<string>, trees: map<string, seq<Definition>>, lines: seq<string>,
                       f: string, sym: string)
    ensures (exists i :: HunkOf(present, trees, lines, i, f, sym))
        <==> exists i, l :: ReportedAt(present, trees, lines, i, l, f, sym)
  {
    if exists i :: HunkOf(present, trees, lines, i, f, sym) {
      var i :| HunkOf(present, trees, lines, i, f, sym);
      var h := ParseHunk(lines[i]).value;
      RangeSymbolsMembership(trees, f, h.start, h.count, sym);
      var l :| h.start <= l < h.start + h.count && Names(trees, f, l, sym);
      assert ReportedAt(present, trees, lines, i, l, f, sym);
    }
    if exists i, l :: ReportedAt(present, trees, lines, i, l, f, sym) {
      var i, l :| ReportedAt(present, trees, lines, i, l, f, sym);
      var h := ParseHunk(lines[i]).value;
      RangeSymbolsMembership(trees, f, h.start, h.count, sym);
      assert HunkOf(present, trees, lines, i, f, sym);
    }
  }


  // ---------------------------------------------------------------------
  // Hunks after a header that is not a Python file
  // ---------------------------------------------------------------------

  /**
   * The file a hunk at the end of `lines` belongs to: the one named by the
   * last `+++` header, or none when that header names no Python file.
   */
  function HeaderOf(lines: seq<string>): Option<string> {
    if lines == [] then None
    else if Text.StartsWith(lines[|lines| - 1], "+++") then PlusPlusFile(lines[|lines| - 1])
    else HeaderOf(lines[..|lines| - 1])
  }

  /** Line 191 with the evidently intended reset: a `+++` header that is not a Python file ends the current file. */
  function LineStepIntended(present: set<string>, trees: map<string, seq<Definition>>, s: WalkState, line: string): WalkState {
    if Text.StartsWith(line, "+++") && PlusPlusFile(line).None? then WalkState(None, s.changed)
    else LineStep(present, trees, s, line)
  }

  function WalkIntended(present: set<string>, trees: map<string, seq<Definition>>, lines: seq<string>): WalkState {
    if lines == [] then WalkState(None, map[])
    else LineStepIntended(present, trees, WalkIntended(present, trees, lines[..|lines| - 1]), lines[|lines| - 1])
  }

  /** With the reset, the current file is always the one the last `+++` header names. */
  lemma {:induction false} IntendedTracksHeader(present: set<string>, trees: map<string, seq<Definition>>, lines: seq<string>)
    ensures WalkIntended(present, trees, lines).current == HeaderOf(lines)
    ensures Tracked(WalkIntended(present, trees, lines))
  {
    if lines != [] {
      IntendedTracksHeader(present, trees, lines[..|lines| - 1]);
    }
  }

  /** Every symbol of the intended walk comes from a hunk that follows its own file's header. */
  ghost predicate FromOwnHunks(present: set<string>, trees: map<string, seq<Definition>>, lines: seq<string>, changed: map<string, set<string>>) {
    forall f, sym :: f in changed && sym in changed[f] ==>
      exists i :: 0 <= i < |lines| && ParseHunk(lines[i]).Some? && HeaderOf(lines[..i]) == Some(f) &&
                  sym in RangeSymbols(trees, f, ParseHunk(lines[i]).value.start, ParseHunk(lines[i]).value.count)
  }

  /** A symbol a hunk step holds was there before or is a name of one of the hunk's lines. */
  lemma HunkStepSource(present: set<string>, trees: map<string, seq<Definition>>, s: WalkState, h: Hunk,
                       f: string, sym: string)
    requires s.current.Some?
    requires f in HunkStep(present, trees, s, h).changed && sym in HunkStep(present, trees, s, h).changed[f]
    ensures (f in s.changed && sym in s.changed[f]) ||
            (s.current == Some(f) && sym in RangeSymbols(trees, f, h.start, h.count))
  {
  }

  /** A symbol the intended step holds was there before or comes from the line's own hunk, under the current file. */
  lemma IntendedStepSource(present: set<string>, trees: map<string, seq<Definition>>, s: WalkState, line: string,
                           f: string, sym: string)
    requires f in LineStepIntended(present, trees, s, line).changed
    requires sym in LineStepIntended(present, trees, s, line).changed[f]
    ensures (f in s.changed && sym in s.changed[f]) ||
            (ParseHunk(line).Some? && s.current == Some(f) &&
             sym in RangeSymbols(trees, f, ParseHunk(line).value.start, ParseHunk(line).value.count))
  {
    if !Text.StartsWith(line, "+++") && Text.StartsWith(line, "@@") && s.current.Some? && ParseHunk(line).Some? {
      HunkStepSource(present, trees, s, ParseHunk(line).value, f, sym);
    }
  }

  /** A symbol already collected keeps the hunk it came from when a line is appended. */
  lemma OwnHunkKept(trees: map<string, seq<Definition>>, init: seq<string>, line: string, f: string, sym: string, i: int)
    requires 0 <= i < |init| && ParseHunk(init[i]).Some? && HeaderOf(init[..i]) == Some(f)
    requires sym in RangeSymbols(trees, f, ParseHunk(init[i]).value.start, ParseHunk(init[i]).value.count)
    ensures var lines := init + [line];
      ParseHunk(lines[i]).Some? && HeaderOf(lines[..i]) == Some(f) &&
      sym in RangeSymbols(trees, f, ParseHunk(lines[i]).value.start, ParseHunk(lines[i]).value.count)
  {
    var lines := init + [line];
    assert lines[i] == init[i] && lines[..i] == init[..i];
  }

  lemma {:induction false} IntendedHunksUnderOwnHeader(present: set<string>, trees: map<string, seq<Definition>>, lines: seq<string>)
    ensures FromOwnHunks(present, trees, lines, WalkIntended(present, trees, lines).changed)
  {
    if lines != [] {
      var n := |lines| - 1;
      var init := lines[..n];
      assert lines == init + [lines[n]];
      var s := WalkIntended(present, trees, init);
      IntendedHunksUnderOwnHeader(present, trees, init);
      IntendedTracksHeader(present, trees, init);
      var changed := WalkIntended(present, trees, lines).changed;
      assert changed == LineStepIntended(present, trees, s, lines[n]).changed;
      forall f, sym | f in changed && sym in changed[f]
        ensures exists i :: 0 <= i < |lines| && ParseHunk(lines[i]).Some? && HeaderOf(lines[..i]) == Some(f) &&
                            sym in RangeSymbols(trees, f, ParseHunk(lines[i]).value.start, ParseHunk(lines[i]).value.count)
      {
        if f in s.changed && sym in s.changed[f] {
          var i :| 0 <= i < |init| && ParseHunk(init[i]).Some? && HeaderOf(init[..i]) == Some(f) &&
            sym in RangeSymbols(trees, f, ParseHunk(init[i]).value.start, ParseHunk(init[i]).value.count);
          OwnHunkKept(trees, init, lines[n], f, sym, i);
        } else {
          IntendedStepSource(present, trees, s, lines[n], f, sym);
        }
      }
    }
  }

  /**
   * `get_changed_symbols` with the reset in place: every symbol reported for
   * a file comes from a hunk whose own `+++` header names that file.
   */
  function ChangedSymbolsIntended(stdout: string, present: set<string>, trees: map<string, seq<Definition>>): (r: map<string, set<string>>)
    ensures forall f :: f in r ==> r[f] != {}
    ensures FromOwnHunks(present, trees, Text.Split(stdout, '\n'), r)
  {
    IntendedHunksUnderOwnHeader(present, trees, Text.Split(stdout, '\n'));
    NonEmpty(WalkIntended(present, trees, Text.Split(stdout, '\n')).changed)
  }

  /** A diff of `a.py` followed by the header of `README.md` and one hunk of it covering lines 1 and 2. */
  function MixedDiff(): seq<string> {
    ["+++ b/a.py", "+++ b/README.md", "@@ -1,0 +1,2 @@"]
  }

  /** `a.py` defines `f` on lines 1 to 3. */
  function MixedTrees(): map<string, seq<Definition>> {
    map["a.py" := [Definition("f", 1, Some(3))]]
  }

  lemma PythonHeader()
    ensures PlusPlusFile("+++ b/a.py") == Some("a.py") && Text.StartsWith("+++ b/a.py", "+++")
  {
    var line := "+++ b/a.py";
    assert line[..6] == "+++ b/" && line[6..] == "a.py";
    assert line[|line| - 3..] == ".py";
    assert line[..3] == "+++";
  }

  lemma ReadmeHeader()
    ensures PlusPlusFile("+++ b/README.md").None? && Text.StartsWith("+++ b/README.md", "+++")
  {
    var line := "+++ b/README.md";
    assert line[|line| - 1] == 'd';
    NotPythonSuffix(line);
    assert line[0] == '+' && line[1] == '+' && line[2] == '+';
    PlusPlusPrefix(line);
  }

  lemma PlusPlusPrefix(line: string)
    requires |line| >= 3 && line[0] == '+' && line[1] == '+' && line[2] == '+'
    ensures Text.StartsWith(line, "+++")
  {
    assert line[..3] == "+++";
  }

  /** A line whose last character is not `y` does not end in `.py`. */
  lemma NotPythonSuffix(line: string)
    requires |line| >= 1 && line[|line| - 1] != 'y'
    ensures !Text.EndsWith(line, ".py")
  {
    if |line| >= 3 {
      assert line[|line| - 3..][2] == line[|line| - 1];
    }
  }

  /** A written hunk header starts with `@@`, so it is never taken for a file header. */
  lemma HunkHeaderPrefix(oldStart: nat, oldCount: Option<nat>, newStart: nat, newCount: Option<nat>, tail: string)
    ensures Text.StartsWith(HunkHeader(oldStart, oldCount, newStart, newCount, tail), "@@")
    ensures !Text.StartsWith(HunkHeader(oldStart, oldCount, newStart, newCount, tail), "+++")
  {
    var line := HunkHeader(oldStart, oldCount, newStart, newCount, tail);
    assert line[..2] == "@@";
    assert line[..3][0] == '@';
  }

  lemma MixedHunk()
    ensures ParseHunk("@@ -1,0 +1,2 @@") == Some(Hunk(1, 2))
    ensures Text.StartsWith("@@ -1,0 +1,2 @@", "@@")
    ensures !Text.StartsWith("@@ -1,0 +1,2 @@", "+++")
  {
    assert Show(0) == "0" && Show(1) == "1" && Show(2) == "2";
    assert HunkHeader(1, Some(0), 1, Some(2), "") == "@@ -1,0 +1,2 @@";
    ParseHunkHeader(1, Some(0), 1, Some(2), "");
    HunkHeaderPrefix(1, Some(0), 1, Some(2), "");
  }

  lemma MixedSymbols()
    ensures RangeSymbols(MixedTrees(), "a.py", 1, 2) == {"f"}
  {
    var d := Definition("f", 1, Some(3));
    assert MixedTrees()["a.py"] == [d];
    assert Covers(d, 1) && Covers(d, 2);
    assert SymbolAt([d], 1) == Some("f") && SymbolAt([d], 2) == Some("f");
    assert RangeSymbols(MixedTrees(), "a.py", 1, 1) == {"f"};
  }

  /**
   * A Python file header, then a `+++` header of some other file, then a
   * hunk: as written, the hunk's lines are looked up in the Python file,
   * although the last header names no Python file.
   */
  lemma HunkAfterForeignHeader(present: set<string>, trees: map<string, seq<Definition>>,
                               pyHeader: string, otherHeader: string, hunk: string, f: string, h: Hunk)
    requires PlusPlusFile(pyHeader) == Some(f) && f in present
    requires Text.StartsWith(otherHeader, "+++") && PlusPlusFile(otherHeader).None?
    requires ParseHunk(hunk) == Some(h) && Text.StartsWith(hunk, "@@") && !Text.StartsWith(hunk, "+++")
    ensures HeaderOf([pyHeader, otherHeader]) == None
    ensures Walk(present, trees, [pyHeader, otherHeader, hunk]) ==
            WalkState(Some(f), map[f := RangeSymbols(trees, f, h.start, h.count)])
    ensures WalkIntended(present, trees, [pyHeader, otherHeader, hunk]) == WalkState(None, map[f := {}])
  {
    TwoHeaders(present, trees, pyHeader, otherHeader, f);
    AsWrittenAfterForeignHeader(present, trees, pyHeader, otherHeader, hunk, f, h);
    IntendedAfterForeignHeader(present, trees, pyHeader, otherHeader, hunk, f);
  }

  lemma AsWrittenAfterForeignHeader(present: set<string>, trees: map<string, seq<Definition>>,
                                    pyHeader: string, otherHeader: string, hunk: string, f: string, h: Hunk)
    requires PlusPlusFile(pyHeader) == Some(f) && f in present
    requires Text.StartsWith(otherHeader, "+++") && PlusPlusFile(otherHeader).None?
    requires ParseHunk(hunk) == Some(h) && Text.StartsWith(hunk, "@@") && !Text.StartsWith(hunk, "+++")
    ensures Walk(present, trees, [pyHeader, otherHeader, hunk]) ==
            WalkState(Some(f), map[f := RangeSymbols(trees, f, h.start, h.count)])
  {
    WalkTwoHeaders(present, trees, pyHeader, otherHeader, f);
    WalkSnoc(present, trees, [pyHeader, otherHeader], hunk);
    assert [pyHeader, otherHeader] + [hunk] == [pyHeader, otherHeader, hunk];
    HunkOnFreshFile(present, trees, hunk, f, h);
  }

  /** A hunk right after a file's header collects exactly the names of its lines. */
  lemma HunkOnFreshFile(present: set<string>, trees: map<string, seq<Definition>>, hunk: string, f: string, h: Hunk)
    requires f in present
    requires ParseHunk(hunk) == Some(h) && Text.StartsWith(hunk, "@@") && !Text.StartsWith(hunk, "+++")
    ensures LineStep(present, trees, WalkState(Some(f), map[f := {}]), hunk)
         == WalkState(Some(f), map[f := RangeSymbols(trees, f, h.start, h.count)])
  {
    HunkLine(present, trees, WalkState(Some(f), map[f := {}]), hunk, h);
    FreshHunkStep(present, trees, f, h);
  }

  lemma FreshHunkStep(present: set<string>, trees: map<string, seq<Definition>>, f: string, h: Hunk)
    requires f in present
    ensures HunkStep(present, trees, WalkState(Some(f), map[f := {}]), h)
         == WalkState(Some(f), map[f := RangeSymbols(trees, f, h.start, h.count)])
  {
    var s1 := WalkState(Some(f), map[f := {}]);
    var r := RangeSymbols(trees, f, h.start, h.count);
    assert SymbolsOf(s1.changed, f) + r == r;
    assert s1.changed[f := r] == map[f := r];
  }

  /** The walk over one more line is one more step. */
  lemma WalkSnoc(present: set<string>, trees: map<string, seq<Definition>>, lines: seq<string>, line: string)
    ensures Walk(present, trees, lines + [line]) == LineStep(present, trees, Walk(present, trees, lines), line)
  {
    assert (lines + [line])[..|lines|] == lines;
  }

  lemma WalkIntendedSnoc(present: set<string>, trees: map<string, seq<Definition>>, lines: seq<string>, line: string)
    ensures WalkIntended(present, trees, lines + [line])
         == LineStepIntended(present, trees, WalkIntended(present, trees, lines), line)
  {
    assert (lines + [line])[..|lines|] == lines;
  }

  /** A hunk header under a current file is a hunk step. */
  lemma HunkLine(present: set<string>, trees: map<string, seq<Definition>>, s: WalkState, line: string, h: Hunk)
    requires s.current.Some?
    requires ParseHunk(line) == Some(h) && Text.StartsWith(line, "@@") && !Text.StartsWith(line, "+++")
    ensures LineStep(present, trees, s, line) == HunkStep(present, trees, s, h)
  {
  }

  lemma TwoHeaders(present: set<string>, trees: map<string, seq<Definition>>, pyHeader: string, otherHeader: string, f: string)
    requires PlusPlusFile(pyHeader) == Some(f)
    requires Text.StartsWith(otherHeader, "+++") && PlusPlusFile(otherHeader).None?
    ensures HeaderOf([pyHeader, otherHeader]) == None
    ensures Walk(present, trees, [pyHeader, otherHeader]) == WalkState(Some(f), map[f := {}])
  {
    WalkTwoHeaders(present, trees, pyHeader, otherHeader, f);
    assert [pyHeader, otherHeader][..1] == [pyHeader];
  }

  lemma WalkTwoHeaders(present: set<string>, trees: map<string, seq<Definition>>, pyHeader: string, otherHeader: string, f: string)
    requires PlusPlusFile(pyHeader) == Some(f)
    requires Text.StartsWith(otherHeader, "+++") && PlusPlusFile(otherHeader).None?
    ensures Walk(present, trees, [pyHeader, otherHeader]) == WalkState(Some(f), map[f := {}])
  {
    assert pyHeader[..3] == "+++";
    WalkSnoc(present, trees, [], pyHeader);
    WalkSnoc(present, trees, [pyHeader], otherHeader);
    assert [] + [pyHeader] == [pyHeader] && [pyHeader] + [otherHeader] == [pyHeader, otherHeader];
  }

  lemma IntendedAfterForeignHeader(present: set<string>, trees: map<string, seq<Definition>>,
                                   pyHeader: string, otherHeader: string, hunk: string, f: string)
    requires PlusPlusFile(pyHeader) == Some(f)
    requires Text.StartsWith(otherHeader, "+++") && PlusPlusFile(otherHeader).None?
    requires !Text.StartsWith(hunk, "+++")
    ensures WalkIntended(present, trees, [pyHeader, otherHeader, hunk]) == WalkState(None, map[f := {}])
  {
    assert pyHeader[..3] == "+++";
    WalkIntendedSnoc(present, trees, [], pyHeader);
    WalkIntendedSnoc(present, trees, [pyHeader], otherHeader);
    WalkIntendedSnoc(present, trees, [pyHeader, otherHeader], hunk);
    assert [] + [pyHeader] == [pyHeader] && [pyHeader] + [otherHeader] == [pyHeader, otherHeader];
    assert [pyHeader, otherHeader] + [hunk] == [pyHeader, otherHeader, hunk];
    var s2 := WalkState(None, map[f := {}]);
    assert WalkIntended(present, trees, [pyHeader, otherHeader]) == s2;
  }

  /** Both walks over the sample diff, line by line. */
  lemma MixedWalks()
    ensures HeaderOf(MixedDiff()[..2]) == None
    ensures Walk({"a.py"}, MixedTrees(), MixedDiff()) == WalkState(Some("a.py"), map["a.py" := {"f"}])
    ensures WalkIntended({"a.py"}, MixedTrees(), MixedDiff()) == WalkState(None, map["a.py" := {}])
  {
    PythonHeader();
    ReadmeHeader();
    MixedHunk();
    MixedSymbols();
    HunkAfterForeignHeader({"a.py"}, MixedTrees(), "+++ b/a.py", "+++ b/README.md", "@@ -1,0 +1,2 @@", "a.py", Hunk(1, 2));
    assert MixedDiff()[..2] == ["+++ b/a.py", "+++ b/README.md"];
  }

  /**
   * The diff `+++ b/a.py`, `+++ b/README.md`, `@@ -1,0 +1,2 @@` with `a.py`
   * defining `f` on lines 1 to 3: as written, `f` is reported changed
   * although no hunk of `a.py` exists; with the reset, nothing is.
   */
  lemma MisattributedHunk()
    ensures HeaderOf(MixedDiff()[..2]) == None
    ensures ParseHunk(MixedDiff()[2]).Some?
    ensures NonEmpty(Walk({"a.py"}, MixedTrees(), MixedDiff()).changed) == map["a.py" := {"f"}]
    ensures NonEmpty(WalkIntended({"a.py"}, MixedTrees(), MixedDiff()).changed) == map[]
  {
    MixedHunk();
    MixedWalks();
    assert "f" in map["a.py" := {"f"}]["a.py"];
  }
}
