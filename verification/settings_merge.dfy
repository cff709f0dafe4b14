/** The rewrite of `settings.gradle.kts` performed after modules are created
    (`addModulesToSettings`): collect the paths of the existing
    `include("…")` directives, add the new module paths, drop every directive
    line, and append the whole set again, sorted, one directive per line. */
module SettingsMerge {
  import opened Wrappers
  import opened Text
  import opened StringOrder
  import opened Lists

  /** The fixed text around a path in a directive: `include("` and `")`. */
  const Opener: string := "include(\""
  const Closer: string := "\")"

  /** The line test used both to drop lines and to look for paths: once
      trimmed, the line starts with `include(` and holds a quote. */
  predicate IsIncludeDirective(line: string) {
    var t := Trim(line);
    StartsWith(t, "include(") && '"' in t
  }

  /** The pattern `include\("([^"]+)"\)` matches `s` at index `i` with `g`
      as its group: `include("`, a non-empty quote-free `g`, then `")`. */
  predicate IncludeMatchAt(s: string, i: int, g: string) {
    0 <= i <= |s| && |g| > 0 && '"' !in g && StartsWith(s[i..], Opener + g + Closer)
  }

  /** Length of the longest quote-free run of `s` starting at `j`. */
  function QuoteFreeLength(s: string, j: int): (n: nat)
    requires 0 <= j <= |s|
    ensures j + n <= |s|
    ensures forall k | j <= k < j + n :: s[k] != '"'
    ensures j + n == |s| || s[j + n] == '"'
    decreases |s| - j
  {
    if j == |s| || s[j] == '"' then 0 else 1 + QuoteFreeLength(s, j + 1)
  }

  /** How a backtracking matcher decides a match at `i`: after the opener,
      `[^"]+` can only stop where a quote follows, i.e. at the end of the
      longest quote-free run, and `")` must come next. */
  predicate MatchAt(s: string, i: int) {
    0 <= i && i + 9 <= |s| && s[i..i + 9] == Opener &&
    var n := QuoteFreeLength(s, i + 9);
    n > 0 && i + 9 + n + 2 <= |s| && s[i + 9 + n] == '"' && s[i + 9 + n + 1] == ')'
  }

  /** The captured group of the match at `i`. */
  function Group(s: string, i: int): string
    requires MatchAt(s, i)
  {
    s[i + 9..i + 9 + QuoteFreeLength(s, i + 9)]
  }

  /** The matcher's test agrees with the pattern, and the group is the only
      one the pattern admits at that index. */
  lemma MatchAtIff(s: string, i: int, g: string)
    ensures IncludeMatchAt(s, i, g) <==> MatchAt(s, i) && g == Group(s, i)
  {
    if IncludeMatchAt(s, i, g) {
      var w := Opener + g + Closer;
      assert s[i..][..|w|] == w;
      forall k | 0 <= k < |w| ensures s[i + k] == w[k] {
        assert s[i..][..|w|][k] == s[i + k];
      }
      assert s[i..i + 9] == w[..9];
      forall k | i + 9 <= k < i + 9 + |g| ensures s[k] != '"' {
        assert s[k] == w[k - i] == g[k - i - 9];
      }
      assert s[i + 9 + |g|] == w[9 + |g|] == '"';
      assert s[i + 9 + |g| + 1] == w[9 + |g| + 1] == ')';
      assert QuoteFreeLength(s, i + 9) == |g|;
      assert s[i + 9..i + 9 + |g|] == w[9..9 + |g|];
    }
    if MatchAt(s, i) && g == Group(s, i) {
      var n := QuoteFreeLength(s, i + 9);
      var w := Opener + g + Closer;
      assert '"' !in g by {
        forall k | 0 <= k < |g| ensures g[k] != '"' {
          assert g[k] == s[i + 9 + k];
        }
      }
      assert s[i..][..|w|] == s[i..i + 9] + s[i + 9..i + 9 + n] + s[i + 9 + n..i + 11 + n];
      assert s[i + 9 + n..i + 11 + n] == Closer;
    }
  }

  /** The leftmost match at or after `i`, as `Regex.find` reports it. */
  function FindFrom(s: string, i: int): Option<string>
    requires 0 <= i <= |s|
    decreases |s| - i
  {
    if MatchAt(s, i) then Some(Group(s, i))
    else if i == |s| then None
    else FindFrom(s, i + 1)
  }

  /** `FindFrom` reports the group of the first index, from `i` on, where
      the matcher succeeds, and nothing when there is none. */
  lemma {:induction false} FindFromFirst(s: string, i: int)
    requires 0 <= i <= |s|
    ensures FindFrom(s, i).Some? ==> exists j | i <= j <= |s| ::
      MatchAt(s, j) && FindFrom(s, i).value == Group(s, j) && forall k | i <= k < j :: !MatchAt(s, k)
    ensures FindFrom(s, i).None? ==> forall k | i <= k <= |s| :: !MatchAt(s, k)
    decreases |s| - i
  {
    if !MatchAt(s, i) && i < |s| {
      FindFromFirst(s, i + 1);
    }
  }

  /** The first group of the leftmost match of the directive pattern in `s`,
      if there is one. */
  function FindInclude(s: string): Option<string> {
    FindFrom(s, 0)
  }

  /** `FindInclude` yields exactly the group of the leftmost match. */
  lemma FindIncludeLeftmost(s: string, g: string)
    ensures FindInclude(s) == Some(g) <==>
      exists i | 0 <= i <= |s| :: IncludeMatchAt(s, i, g) &&
        forall k, h | 0 <= k < i :: !IncludeMatchAt(s, k, h)
  {
    FindFromFirst(s, 0);
    if FindInclude(s) == Some(g) {
      var j :| 0 <= j <= |s| && MatchAt(s, j) && g == Group(s, j) &&
        forall k | 0 <= k < j :: !MatchAt(s, k);
      MatchAtIff(s, j, g);
      forall k, h | 0 <= k < j ensures !IncludeMatchAt(s, k, h) {
        MatchAtIff(s, k, h);
      }
    }
    if exists i | 0 <= i <= |s| :: IncludeMatchAt(s, i, g) &&
        forall k, h | 0 <= k < i :: !IncludeMatchAt(s, k, h) {
      var i :| 0 <= i <= |s| && IncludeMatchAt(s, i, g) &&
        forall k, h | 0 <= k < i :: !IncludeMatchAt(s, k, h);
      MatchAtIff(s, i, g);
      var r := FindInclude(s);
      var j :| 0 <= j <= |s| && MatchAt(s, j) && r.value == Group(s, j) &&
        forall k | 0 <= k < j :: !MatchAt(s, k);
      MatchAtIff(s, j, Group(s, j));
      assert j == i;
    }
  }

  /** `FindInclude` reports nothing exactly when the pattern matches nowhere. */
  lemma FindIncludeNone(s: string)
    ensures FindInclude(s) == None <==> forall i, g :: !IncludeMatchAt(s, i, g)
  {
    FindFromFirst(s, 0);
    forall i, g ensures IncludeMatchAt(s, i, g) ==> FindInclude(s).Some? {
      MatchAtIff(s, i, g);
    }
    if FindInclude(s).Some? {
      var g := FindInclude(s).value;
      FindIncludeLeftmost(s, g);
    }
  }

  /** The path a line contributes: only a directive line, and only when the
      pattern matches inside its trimmed text. */
  function EntryOf(line: string): Option<string> {
    if IsIncludeDirective(line) then FindInclude(Trim(line)) else None
  }

  /** The paths collected from the lines, in line order. */
  function ExtractedEntries(lines: seq<string>): seq<string> {
    Collect(lines, EntryOf)
  }

  predicate IsKept(line: string) {
    !IsIncludeDirective(line)
  }

  /** The lines that survive the merge: every line that is not a directive. */
  function KeptLines(lines: seq<string>): seq<string> {
    Filter(lines, IsKept)
  }

  /** The directive lines, in their original order. */
  function DirectiveLines(lines: seq<string>): seq<string> {
    Filter(lines, IsIncludeDirective)
  }

  /** The directive written for one path. */
  function RenderInclude(entry: string): string {
    Opener + entry + Closer
  }

  function RenderAll(entries: seq<string>): (r: seq<string>)
    ensures |r| == |entries|
    ensures forall k | 0 <= k < |r| :: r[k] == RenderInclude(entries[k])
  {
    seq(|entries|, k requires 0 <= k < |entries| => RenderInclude(entries[k]))
  }

  /** The directives for a collection of paths: distinct, sorted, one per line. */
  function IncludeBlock(entries: seq<string>): string {
    Join(RenderAll(SortDistinct(entries)), "\n")
  }

  /** The final text: the directive block alone when the remaining content
      trims to nothing, otherwise the remainder, a separator that ends it with
      exactly one empty line, and the block. */
  function Assemble(rest: string, block: string): string {
    if Trim(rest) == [] then block
    else rest + (if EndsWith(rest, "\n") then "\n" else "\n\n") + block
  }

  /** The new settings text for `text` after adding `newEntries`. Once at
      least one writable path is added, its lines are those of the original
      that are not directives (with one empty line after them, none at all
      when they are blank), followed by one directive per path of the
      sorted, duplicate-free union of the old and the new paths. */
  function Merge(text: string, newEntries: seq<string>): string {
    var lines := Lines(text);
    Assemble(Join(KeptLines(lines), "\n"), IncludeBlock(ExtractedEntries(lines) + newEntries))
  }

  /** A path that survives being written as a directive and read back:
      non-empty, without quotes and without line breaks. */
  predicate IsEntry(e: string) {
    |e| > 0 && '"' !in e && NoBreak(e)
  }

  predicate AllEntries(es: seq<string>) {
    forall k | 0 <= k < |es| :: IsEntry(es[k])
  }

  // ---------------------------------------------------------------------
  // Single lines

  /** A rendered directive counts as a directive. */
  lemma RenderedIsDirective(e: string)
    ensures IsIncludeDirective(RenderInclude(e))
  {
    RenderedShape(e);
    DirectiveByShape(RenderInclude(e));
  }

  /** A rendered directive is its own trimmed form. */
  lemma RenderedIsTrimmed(e: string)
    ensures Trim(RenderInclude(e)) == RenderInclude(e)
  {
    RenderedShape(e);
    ShapeTrimmed(RenderInclude(e));
  }

  lemma RenderedShape(e: string)
    ensures StartsWith(RenderInclude(e), Opener)
    ensures RenderInclude(e)[|RenderInclude(e)| - 1] == ')'
  {
    assert RenderInclude(e)[..9] == Opener;
  }

  /** A directive written for a path yields that path back. */
  lemma RenderedEntry(e: string)
    requires |e| > 0 && '"' !in e
    ensures EntryOf(RenderInclude(e)) == Some(e)
  {
    RenderedIsDirective(e);
    RenderedIsTrimmed(e);
    RenderedFound(e);
  }

  lemma RenderedFound(e: string)
    requires |e| > 0 && '"' !in e
    ensures FindInclude(RenderInclude(e)) == Some(e)
  {
    RenderedMatches(e);
  }

  lemma RenderedMatches(e: string)
    requires |e| > 0 && '"' !in e
    ensures MatchAt(RenderInclude(e), 0) && Group(RenderInclude(e), 0) == e
  {
    var m := RenderInclude(e);
    assert m[0..] == m;
    assert IncludeMatchAt(m, 0, e);
    MatchAtIff(m, 0, e);
  }

  lemma RenderedNoBreak(e: string)
    requires NoBreak(e)
    ensures NoBreak(RenderInclude(e))
  {
  }

  /** An empty line is kept and yields no path. */
  lemma EmptyLineKept()
    ensures !IsIncludeDirective("")
  {
    assert |Trim("")| == 0;
  }

  /** Every path read from a line is one that can be written back. */
  lemma EntryOfIsEntry(line: string)
    requires NoBreak(line) && EntryOf(line).Some?
    ensures IsEntry(EntryOf(line).value)
  {
    var t := Trim(line);
    var g := EntryOf(line).value;
    FindIncludeLeftmost(t, g);
    var i :| 0 <= i <= |t| && IncludeMatchAt(t, i, g) &&
      forall k, h | 0 <= k < i :: !IncludeMatchAt(t, k, h);
    GroupCharIn(t, i, g, '\n');
    GroupCharIn(t, i, g, '\r');
    TrimKeepsChars(line, '\n');
    TrimKeepsChars(line, '\r');
  }

  /** A matched group is part of the text it was matched in. */
  lemma GroupCharIn(t: string, i: int, g: string, c: char)
    ensures IncludeMatchAt(t, i, g) && c in g ==> c in t
  {
    if IncludeMatchAt(t, i, g) && c in g {
      var w := Opener + g + Closer;
      var k :| 0 <= k < |g| && g[k] == c;
      assert t[i..][..|w|] == w;
      assert t[i..][..|w|][9 + k] == t[i + 9 + k];
    }
  }

  // ---------------------------------------------------------------------
  // Line sequences

  /** Filtering and collecting work line by line. */
  lemma PartsAppend(a: seq<string>, b: seq<string>)
    ensures KeptLines(a + b) == KeptLines(a) + KeptLines(b)
    ensures DirectiveLines(a + b) == DirectiveLines(a) + DirectiveLines(b)
    ensures ExtractedEntries(a + b) == ExtractedEntries(a) + ExtractedEntries(b)
  {
    FilterAppend(a, b, IsKept);
    FilterAppend(a, b, IsIncludeDirective);
    CollectAppend(a, b, EntryOf);
  }

  /** A line is dropped exactly when it is a directive; the directives are
      the other lines. */
  lemma KeptLinesMembers(lines: seq<string>, x: string)
    ensures x in KeptLines(lines) <==> x in lines && !IsIncludeDirective(x)
    ensures x in DirectiveLines(lines) <==> x in lines && IsIncludeDirective(x)
  {
    FilterMembers(lines, IsKept, x);
    FilterMembers(lines, IsIncludeDirective, x);
  }

  /** Directives written for paths are all dropped, and read back as exactly
      those paths. */
  lemma RenderAllReadBack(es: seq<string>)
    requires forall k | 0 <= k < |es| :: |es[k]| > 0 && '"' !in es[k]
    ensures KeptLines(RenderAll(es)) == []
    ensures DirectiveLines(RenderAll(es)) == RenderAll(es)
    ensures ExtractedEntries(RenderAll(es)) == es
  {
    var r := RenderAll(es);
    forall k | 0 <= k < |r| ensures IsIncludeDirective(r[k]) {
      RenderedIsDirective(es[k]);
    }
    forall k | 0 <= k < |r| ensures EntryOf(r[k]) == Some(es[k]) {
      RenderedEntry(es[k]);
    }
    FilterNone(r, IsKept);
    FilterAll(r, IsIncludeDirective);
    CollectAll(r, es, EntryOf);
  }

  /** Paths read from break-free lines can be written back. */
  lemma ExtractedAreEntries(lines: seq<string>)
    requires forall k | 0 <= k < |lines| :: NoBreak(lines[k])
    ensures AllEntries(ExtractedEntries(lines))
  {
    var ex := ExtractedEntries(lines);
    forall k | 0 <= k < |ex| ensures IsEntry(ex[k]) {
      CollectSource(lines, EntryOf, ex[k]);
      var j :| 0 <= j < |lines| && EntryOf(lines[j]) == Some(ex[k]);
      EntryOfIsEntry(lines[j]);
    }
  }

  lemma RenderAllNoBreak(es: seq<string>)
    requires AllEntries(es)
    ensures forall k | 0 <= k < |RenderAll(es)| :: NoBreak(RenderAll(es)[k])
  {
    forall k | 0 <= k < |es| ensures NoBreak(RenderAll(es)[k]) {
      RenderedNoBreak(es[k]);
    }
  }

  /** The merged path list: the distinct union, sorted. */
  function MergedEntries(text: string, newEntries: seq<string>): seq<string> {
    SortDistinct(ExtractedEntries(Lines(text)) + newEntries)
  }

  /** The sorted union of writable paths, at least one of them new, is
      non-empty and holds only writable paths. */
  lemma SortedUnionFacts(ex: seq<string>, newEntries: seq<string>)
    requires AllEntries(ex) && |newEntries| > 0 && AllEntries(newEntries)
    ensures |SortDistinct(ex + newEntries)| > 0
    ensures AllEntries(SortDistinct(ex + newEntries))
  {
    var all := ex + newEntries;
    var es := SortDistinct(all);
    assert all[|ex|] == newEntries[0];
    assert newEntries[0] in es;
    forall k | 0 <= k < |es| ensures IsEntry(es[k]) {
      assert es[k] in all;
      var m :| 0 <= m < |all| && all[m] == es[k];
      if m < |ex| {
        assert es[k] == ex[m];
      } else {
        assert es[k] == newEntries[m - |ex|];
      }
    }
  }

  /** The kept lines of a text are break-free. */
  lemma KeptLinesNoBreak(text: string)
    ensures forall k | 0 <= k < |KeptLines(Lines(text))| :: NoBreak(KeptLines(Lines(text))[k])
  {
    var lines := Lines(text);
    var kept := KeptLines(lines);
    forall k | 0 <= k < |kept| ensures NoBreak(kept[k]) {
      KeptLinesMembers(lines, kept[k]);
    }
  }

  lemma MergedEntriesFacts(text: string, newEntries: seq<string>)
    requires |newEntries| > 0 && AllEntries(newEntries)
    ensures |MergedEntries(text, newEntries)| > 0
    ensures AllEntries(MergedEntries(text, newEntries))
  {
    ExtractedAreEntries(Lines(text));
    SortedUnionFacts(ExtractedEntries(Lines(text)), newEntries);
  }

  // ---------------------------------------------------------------------
  // The merge

  /** The line after the remainder: none when it already ends with a line
      break, otherwise one empty line. */
  function Gap(rest: string): seq<string> {
    if EndsWith(rest, "\n") then [] else [""]
  }

  /** The non-directive lines of the merged text: none when what remains of
      the original is blank, otherwise the original's surviving lines and
      the gap. */
  function MergeKept(text: string): seq<string> {
    var kept := KeptLines(Lines(text));
    var rest := Join(kept, "\n");
    if IsBlank(rest) then [] else kept + Gap(rest)
  }

  /** `Merge` in terms of the merged path list. */
  lemma MergeUnfold(text: string, newEntries: seq<string>)
    ensures Merge(text, newEntries) ==
      Assemble(Join(KeptLines(Lines(text)), "\n"), Join(RenderAll(MergedEntries(text, newEntries)), "\n"))
  {
  }

  /** The lines of an assembled text: the directive lines alone when the
      remainder is blank, otherwise the remainder's lines, the gap, and the
      directive lines. */
  lemma AssembleLines(kept: seq<string>, rendered: seq<string>)
    requires |rendered| > 0
    requires forall k | 0 <= k < |kept| :: NoBreak(kept[k])
    requires forall k | 0 <= k < |rendered| :: NoBreak(rendered[k])
    ensures
      var rest := Join(kept, "\n");
      Lines(Assemble(rest, Join(rendered, "\n"))) ==
        (if IsBlank(rest) then [] else kept + Gap(rest)) + rendered
  {
    var rest := Join(kept, "\n");
    var block := Join(rendered, "\n");
    LinesOfJoin(rendered);
    if !IsBlank(rest) {
      assert |kept| > 0;
      LinesOfJoin(kept);
      NoCarriageReturnInJoin(kept);
      NoCarriageReturnInJoin(rendered);
      LinesAfterSeparator(rest, block);
    }
  }

  /** The separator `Assemble` puts between a carriage-return-free remainder
      and block adds `Gap` between their lines. */
  lemma LinesAfterSeparator(rest: string, block: string)
    requires '\r' !in rest && '\r' !in block
    ensures Lines(rest + (if EndsWith(rest, "\n") then "\n" else "\n\n") + block) ==
      Lines(rest) + Gap(rest) + Lines(block)
  {
    if EndsWith(rest, "\n") {
      LinesAppend(rest, block);
    } else {
      LinesAfterEmptyLine(rest, block);
    }
  }

  lemma LinesAfterEmptyLine(rest: string, block: string)
    requires '\r' !in rest && '\r' !in block
    ensures Lines(rest + "\n\n" + block) == Lines(rest) + [""] + Lines(block)
  {
    var tail := "" + "\n" + block;
    LinesAppend("", block);
    assert '\r' !in tail;
    LinesAppend(rest, tail);
    SeparatorSplits(rest, block);
  }

  lemma SeparatorSplits(rest: string, block: string)
    ensures rest + "\n\n" + block == rest + "\n" + ("" + "\n" + block)
  {
  }

  /** The lines of the merged text: the surviving lines as `MergeKept`
      describes them, then one directive per merged path. */
  lemma MergeLines(text: string, newEntries: seq<string>)
    requires |newEntries| > 0 && AllEntries(newEntries)
    ensures Lines(Merge(text, newEntries)) == MergeKept(text) + RenderAll(MergedEntries(text, newEntries))
  {
    var es := MergedEntries(text, newEntries);
    MergedEntriesFacts(text, newEntries);
    RenderAllNoBreak(es);
    KeptLinesNoBreak(text);
    AssembleLines(KeptLines(Lines(text)), RenderAll(es));
  }

  /** The kept lines pass the line test. */
  lemma KeptLinesKept(lines: seq<string>)
    ensures forall k | 0 <= k < |KeptLines(lines)| :: IsKept(KeptLines(lines)[k])
  {
    var kept := KeptLines(lines);
    forall k | 0 <= k < |kept| ensures IsKept(kept[k]) {
      FilterMembers(lines, IsKept, kept[k]);
    }
  }

  lemma MergeKeptAreKept(text: string)
    ensures forall k | 0 <= k < |MergeKept(text)| :: IsKept(MergeKept(text)[k])
  {
    forall k | 0 <= k < |MergeKept(text)| ensures IsKept(MergeKept(text)[k]) {
      MergeKeptAt(text, k);
    }
  }

  lemma MergeKeptAt(text: string, k: nat)
    requires k < |MergeKept(text)|
    ensures IsKept(MergeKept(text)[k])
  {
    var kept := KeptLines(Lines(text));
    var rest := Join(kept, "\n");
    assert !IsBlank(rest);
    var m := kept + Gap(rest);
    assert MergeKept(text) == m;
    if k < |kept| {
      assert IsKept(kept[k]) by {
        KeptLinesKept(Lines(text));
      }
      assert m[k] == kept[k];
    } else {
      assert IsKept("") by {
        EmptyLineKept();
      }
      assert m[k] == "";
    }
  }

  /** Reading lines back: non-directive lines followed by rendered
      directives keep the former and give back the paths of the latter. */
  lemma ReadBack(kept: seq<string>, es: seq<string>)
    requires forall k | 0 <= k < |kept| :: IsKept(kept[k])
    requires AllEntries(es)
    ensures KeptLines(kept + RenderAll(es)) == kept
    ensures DirectiveLines(kept + RenderAll(es)) == RenderAll(es)
    ensures ExtractedEntries(kept + RenderAll(es)) == es
  {
    FilterAll(kept, IsKept);
    FilterNone(kept, IsIncludeDirective);
    CollectNone(kept, EntryOf);
    RenderAllReadBack(es);
    PartsAppend(kept, RenderAll(es));
  }

  /** Reading the merged text back. */
  lemma MergeReadBack(text: string, newEntries: seq<string>)
    requires |newEntries| > 0 && AllEntries(newEntries)
    ensures KeptLines(Lines(Merge(text, newEntries))) == MergeKept(text)
    ensures DirectiveLines(Lines(Merge(text, newEntries))) == RenderAll(MergedEntries(text, newEntries))
    ensures ExtractedEntries(Lines(Merge(text, newEntries))) == MergedEntries(text, newEntries)
  {
    MergeLines(text, newEntries);
    MergedEntriesFacts(text, newEntries);
    MergeKeptAreKept(text);
    ReadBack(MergeKept(text), MergedEntries(text, newEntries));
  }

  /** What the merged text holds: its directives are the sorted, duplicate-free
      union of the existing and the new paths, and its other lines are those
      `MergeKept` describes. */
  lemma MergeContents(text: string, newEntries: seq<string>)
    requires |newEntries| > 0 && AllEntries(newEntries)
    ensures DirectiveLines(Lines(Merge(text, newEntries))) == RenderAll(MergedEntries(text, newEntries))
    ensures StrictlySorted(ExtractedEntries(Lines(Merge(text, newEntries))))
    ensures forall e :: e in ExtractedEntries(Lines(Merge(text, newEntries))) <==>
      e in ExtractedEntries(Lines(text)) || e in newEntries
    ensures KeptLines(Lines(Merge(text, newEntries))) == MergeKept(text)
  {
    MergeReadBack(text, newEntries);
    var prior := ExtractedEntries(Lines(text));
    forall e ensures e in prior + newEntries <==> e in prior || e in newEntries {
    }
  }

  /** Assembling again after the remainder gained its gap gives the same text. */
  lemma AssembleAgain(text: string, block: string)
    ensures Assemble(Join(MergeKept(text), "\n"), block) == Assemble(Join(KeptLines(Lines(text)), "\n"), block)
  {
    var kept := KeptLines(Lines(text));
    var rest := Join(kept, "\n");
    if !IsBlank(rest) && !EndsWith(rest, "\n") {
      assert |kept| > 0;
      JoinSnoc(kept, "", "\n");
      var rest2 := Join(kept + [""], "\n");
      assert rest2 == rest + "\n";
      BlankAppend(rest, "\n");
      assert EndsWith(rest2, "\n");
      assert rest2 + "\n" == rest + "\n\n";
    } else if !IsBlank(rest) {
      assert kept + [] == kept;
    }
  }

  /** The second merge sees the same path list as the first. */
  lemma SecondPassEntries(text: string, newEntries: seq<string>)
    requires |newEntries| > 0 && AllEntries(newEntries)
    ensures MergedEntries(Merge(text, newEntries), newEntries) == MergedEntries(text, newEntries)
  {
    var ex := ExtractedEntries(Lines(text));
    var es := MergedEntries(text, newEntries);
    MergeReadBack(text, newEntries);
    forall y ensures y in es + newEntries <==> y in ex + newEntries {
    }
    SortDistinctCanonical(es + newEntries, ex + newEntries);
  }

  /** Merging the same paths a second time changes nothing. */
  lemma MergeIdempotent(text: string, newEntries: seq<string>)
    requires |newEntries| > 0 && AllEntries(newEntries)
    ensures Merge(Merge(text, newEntries), newEntries) == Merge(text, newEntries)
  {
    var once := Merge(text, newEntries);
    var block := Join(RenderAll(MergedEntries(text, newEntries)), "\n");
    MergeReadBack(text, newEntries);
    SecondPassEntries(text, newEntries);
    MergeUnfold(once, newEntries);
    MergeUnfold(text, newEntries);
    AssembleAgain(text, block);
  }

  /** Only which paths are added matters, not their order or repetition. */
  lemma MergeOrderIndependent(text: string, a: seq<string>, b: seq<string>)
    requires forall y :: y in a <==> y in b
    ensures Merge(text, a) == Merge(text, b)
  {
    var ex := ExtractedEntries(Lines(text));
    forall y ensures y in ex + a <==> y in ex + b {
    }
    SortDistinctCanonical(ex + a, ex + b);
  }

  // ---------------------------------------------------------------------
  // A directive the pattern does not match

  /** `include("a", "b")`: a directive line with two arguments. */
  const TwoArguments: string := "include(\"a\", \"b\")"

  /** Such a line is dropped like any directive but contributes no path. */
  lemma TwoArgumentsDropped()
    ensures IsIncludeDirective(TwoArguments)
    ensures EntryOf(TwoArguments) == None
    ensures KeptLines([TwoArguments]) == []
    ensures ExtractedEntries([TwoArguments]) == []
  {
    TwoArgumentsDirective();
    TwoArgumentsNoEntry();
    FilterNone([TwoArguments], IsKept);
    CollectNone([TwoArguments], EntryOf);
  }

  lemma TwoArgumentsNoEntry()
    ensures EntryOf(TwoArguments) == None
  {
    TwoArgumentsDirective();
    TwoArgumentsUnmatched();
  }

  lemma TwoArgumentsDirective()
    ensures Trim(TwoArguments) == TwoArguments
    ensures IsIncludeDirective(TwoArguments)
  {
    var l := TwoArguments;
    assert l[..9] == Opener && l[|l| - 1] == ')';
    DirectiveByShape(l);
  }

  /** A line that starts with `include("` and ends with `)` is its own
      trimmed form and a directive. */
  lemma DirectiveByShape(l: string)
    requires StartsWith(l, Opener) && l[|l| - 1] == ')'
    ensures Trim(l) == l
    ensures IsIncludeDirective(l)
  {
    ShapeTrimmed(l);
    ShapeStartsWith(l);
    ShapeHasQuote(l);
  }

  lemma ShapeStartsWith(l: string)
    requires StartsWith(l, Opener)
    ensures StartsWith(l, "include(")
  {
    assert l[..8] == Opener[..8];
  }

  lemma ShapeHasQuote(l: string)
    requires StartsWith(l, Opener)
    ensures '"' in l
  {
    assert l[8] == Opener[8];
  }

  lemma ShapeTrimmed(l: string)
    requires StartsWith(l, Opener) && l[|l| - 1] == ')'
    ensures Trim(l) == l
  {
    assert l[0] == Opener[0];
    TrimUnique("", l, "");
    assert "" + l + "" == l;
  }

  lemma TwoArgumentsUnmatched()
    ensures FindInclude(TwoArguments) == None
  {
    var l := TwoArguments;
    forall k | 0 <= k <= |l| ensures !MatchAt(l, k) {
      if 0 < k <= |l| - 9 {
        assert l[k..k + 9][0] == l[k] != 'i';
      }
      if k == 0 {
        assert l[9] != '"' && l[10] == '"';
        assert QuoteFreeLength(l, 10) == 0;
        assert QuoteFreeLength(l, 9) == 1;
        assert l[11] != ')';
      }
    }
    FindFromFirst(l, 0);
  }
}
