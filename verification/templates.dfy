/** The build.gradle.kts texts written into new sub-modules, as Kotlin's
    `trimIndent()` leaves them: a list of lines joined by "\n", with the
    sub-module's commonMain dependencies in the middle. */
module Templates {
  import opened Text
  import opened Lists
  import opened Kinds
  import opened ScriptLines

  function Indented(deps: seq<string>): (r: seq<string>)
    ensures |r| == |deps|
    ensures forall k | 0 <= k < |deps| :: r[k] == Indent16 + deps[k]
  {
    seq(|deps|, k requires 0 <= k < |deps| => Indent16 + deps[k])
  }

  /** The lines of a multiplatform build file with the given target note and
      commonMain dependencies. */
  function BuildLines(note: string, deps: seq<string>): seq<string> {
    Head + [note] + SourceSetsOpen + Indented(deps) + Tail
  }

  function BuildFile(note: string, deps: seq<string>): string {
    Join(BuildLines(note, deps), "\n")
  }

  /** `implementation(project("<path>"))`. */
  function ProjectDependency(path: string): string {
    "implementation(project(\"" + path + "\"))"
  }

  const ProjectCall: string := "project("

  /** A line that declares a dependency on another Gradle project. */
  predicate DeclaresDependency(line: string) {
    Occurs(ProjectCall, line)
  }

  function DependencyLines(lines: seq<string>): seq<string> {
    Filter(lines, DeclaresDependency)
  }

  /** Project dependencies on the given sub-modules of the feature whose
      Gradle path is `prefix`. */
  function UpstreamDependencies(us: seq<Kind>, prefix: string): (r: seq<string>)
    ensures |r| == |us|
    ensures forall i | 0 <= i < |us| :: r[i] == ProjectDependency(prefix + ":" + us[i].Name())
  {
    seq(|us|, i requires 0 <= i < |us| => ProjectDependency(prefix + ":" + us[i].Name()))
  }

  /** The commonMain dependencies of a sub-module of kind `k` of the feature
      at Gradle path `prefix`. */
  function Dependencies(k: Kind, prefix: string): seq<string> {
    UpstreamDependencies(Upstream(k), prefix) + [ModuleComment(k)]
      + (if k == Testing then [TestDependency] else [])
  }

  /** The Gradle path of the feature as the dialog defaults spell it. */
  const PlaceholderPrefix: string := ProjectPlaceholder + ":" + DirectoryPlaceholder

  /** The default template a dialog offers for a sub-module of kind `k`. */
  function DefaultTemplate(k: Kind): string {
    BuildFile(BlankTargetsLine, Dependencies(k, PlaceholderPrefix))
  }

  /** The file the new-feature creator writes when it was given no template:
      the feature is assumed to live under `:shared`. */
  function CreatorDefault(k: Kind, directoryName: string): string {
    BuildFile(BlankTargetsLine, Dependencies(k, ":shared:" + directoryName))
  }

  /** The one file the ui creator writes for every sub-module. */
  const MultiplatformBuildFile: string := BuildFile(TargetsComment, [CommonComment])

  /** The new-feature dialog's substitution: directory name, then project
      directory, then namespace, each a literal replace-all. A template
      that mentions none of the three placeholders comes through unchanged. */
  function Resolve(template: string, directoryName: string, projectDirectory: string,
                   namespace: string): (r: string)
    ensures (!Occurs(DirectoryPlaceholder, template) && !Occurs(ProjectPlaceholder, template)
             && !Occurs(NamespacePlaceholder, template)) ==> r == template
  {
    var t := ReplaceAll(template, DirectoryPlaceholder, directoryName);
    var u := ReplaceAll(t, ProjectPlaceholder, projectDirectory);
    ReplaceAbsentWhen(template, DirectoryPlaceholder, directoryName);
    ReplaceAbsentWhen(template, ProjectPlaceholder, projectDirectory);
    ReplaceAbsentWhen(template, NamespacePlaceholder, namespace);
    ReplaceAll(u, NamespacePlaceholder, namespace)
  }

  /** The compose dialog's substitution, without the namespace. A template
      that mentions neither path placeholder comes through unchanged,
      `$namespace` included. */
  function ResolvePaths(template: string, directoryName: string, projectDirectory: string): (r: string)
    ensures !Occurs(DirectoryPlaceholder, template) && !Occurs(ProjectPlaceholder, template) ==> r == template
  {
    var t := ReplaceAll(template, DirectoryPlaceholder, directoryName);
    ReplaceAbsentWhen(template, DirectoryPlaceholder, directoryName);
    ReplaceAbsentWhen(template, ProjectPlaceholder, projectDirectory);
    ReplaceAll(t, ProjectPlaceholder, projectDirectory)
  }

  // Facts about the fixed lines.

  lemma FixedLineFacts(line: string)
    ensures Fixed(line) ==> NoBreak(line) && '$' !in line && !DeclaresDependency(line)
  {
    if Fixed(line) {
      if forall i | 0 <= i < |line| :: line[i] != 'j' {
        AbsentChar(ProjectCall, line, 'j');
      } else {
        AbsentChar(ProjectCall, line, 'p');
      }
    }
  }

  lemma FixedNone(lines: seq<string>)
    requires forall i | 0 <= i < |lines| :: Fixed(lines[i])
    ensures DependencyLines(lines) == []
  {
    forall i | 0 <= i < |lines| ensures !DeclaresDependency(lines[i]) {
      FixedLineFacts(lines[i]);
    }
    FilterNone(lines, DeclaresDependency);
  }

  lemma FixedUnchanged(lines: seq<string>, p: string, v: string)
    requires |p| > 0 && p[0] == '$'
    requires forall i | 0 <= i < |lines| :: Fixed(lines[i])
    ensures ReplaceEach(lines, p, v) == lines
  {
    forall i | 0 <= i < |lines| ensures p[0] !in lines[i] {
      FixedLineFacts(lines[i]);
    }
    ReplaceEachAbsent(lines, p, v);
  }

  lemma IndentedAppend(a: seq<string>, b: seq<string>)
    ensures Indented(a + b) == Indented(a) + Indented(b)
  {
  }

  lemma IndentedFixed(deps: seq<string>)
    requires forall i | 0 <= i < |deps| :: Fixed(deps[i])
    ensures forall i | 0 <= i < |deps| :: Fixed(Indented(deps)[i])
  {
    forall i | 0 <= i < |deps| ensures Fixed(Indent16 + deps[i]) {
      var s := Indent16 + deps[i];
      assert forall j | 0 <= j < |s| :: s[j] == (if j < 16 then ' ' else deps[i][j - 16]);
    }
  }

  /** The fixed lines around the dependencies. */
  lemma SkeletonFixed(note: string, deps: seq<string>, i: int)
    requires Fixed(note) && 0 <= i < |BuildLines(note, deps)|
    ensures !(|Head| + 1 + |SourceSetsOpen| <= i < |Head| + 1 + |SourceSetsOpen| + |deps|)
      ==> Fixed(BuildLines(note, deps)[i])
  {
    var lines := BuildLines(note, deps);
    var d := |Head| + 1 + |SourceSetsOpen|;
    if i < |Head| {
      assert lines[i] == Head[i];
    } else if i == |Head| {
      assert lines[i] == note;
    } else if i < d {
      assert lines[i] == SourceSetsOpen[i - |Head| - 1];
    } else if d + |deps| <= i {
      assert lines[i] == Tail[i - d - |deps|];
    }
  }

  lemma DependencyLineOf(note: string, deps: seq<string>, i: int)
    requires 0 <= i < |deps|
    ensures BuildLines(note, deps)[|Head| + 1 + |SourceSetsOpen| + i] == Indent16 + deps[i]
  {
  }

  // The file reads back as its lines.

  /** Splitting a build file into lines gives back its parts, provided none of
      them holds a break. */
  lemma BuildFileLines(note: string, deps: seq<string>)
    requires Fixed(note)
    requires forall i | 0 <= i < |deps| :: NoBreak(deps[i])
    ensures Lines(BuildFile(note, deps)) == BuildLines(note, deps)
  {
    var lines := BuildLines(note, deps);
    var d := |Head| + 1 + |SourceSetsOpen|;
    forall i | 0 <= i < |lines| ensures NoBreak(lines[i]) {
      SkeletonFixed(note, deps, i);
      FixedLineFacts(lines[i]);
      if d <= i < d + |deps| {
        DependencyLineOf(note, deps, i - d);
        assert NoBreak(Indent16) && NoBreak(deps[i - d]);
      }
    }
    LinesOfJoin(lines);
  }

  lemma DependencyNoBreak(path: string)
    requires NoBreak(path)
    ensures NoBreak(ProjectDependency(path))
  {
    var opening := "implementation(project(\"";
    assert NoBreak(opening);
    assert ProjectDependency(path) == opening + path + "\"))";
  }

  lemma DependenciesNoBreak(k: Kind, prefix: string)
    requires NoBreak(prefix)
    ensures forall i | 0 <= i < |Dependencies(k, prefix)| :: NoBreak(Dependencies(k, prefix)[i])
  {
    var us := Upstream(k);
    var up := UpstreamDependencies(us, prefix);
    var rest: seq<FixedLine> := [ModuleComment(k)] + (if k == Testing then [TestDependency] else []);
    assert Dependencies(k, prefix) == up + rest;
    forall i | 0 <= i < |up| ensures NoBreak(up[i]) {
      DependencyNoBreak(prefix + ":" + us[i].Name());
    }
    forall i | 0 <= i < |rest| ensures NoBreak(rest[i]) {
      FixedLineFacts(rest[i]);
    }
  }

  // Which lines declare dependencies.

  lemma DependencyDeclares(path: string)
    ensures DeclaresDependency(Indent16 + ProjectDependency(path))
  {
    var line := Indent16 + ProjectDependency(path);
    assert line[31..39] == ProjectCall;
    assert OccursAt(ProjectCall, line, 31);
  }

  lemma UpstreamAllDeclare(us: seq<Kind>, prefix: string)
    ensures DependencyLines(Indented(UpstreamDependencies(us, prefix)))
      == Indented(UpstreamDependencies(us, prefix))
  {
    var lines := Indented(UpstreamDependencies(us, prefix));
    forall i | 0 <= i < |lines| ensures DeclaresDependency(lines[i]) {
      DependencyDeclares(prefix + ":" + us[i].Name());
    }
    FilterAll(lines, DeclaresDependency);
  }

  lemma DependencyLinesAppend(a: seq<string>, b: seq<string>)
    ensures DependencyLines(a + b) == DependencyLines(a) + DependencyLines(b)
  {
    FilterAppend(a, b, DeclaresDependency);
  }

  /** The only dependency lines of a build file are the project dependencies
      among its commonMain dependencies. */
  lemma BuildFileDependencyLines(note: string, deps: seq<string>)
    requires Fixed(note)
    ensures DependencyLines(BuildLines(note, deps)) == DependencyLines(Indented(deps))
  {
    FixedNone(Head);
    FixedNone([note]);
    FixedNone(SourceSetsOpen);
    FixedNone(Tail);
    DependencyLinesAppend(Head, [note]);
    DependencyLinesAppend(Head + [note], SourceSetsOpen);
    DependencyLinesAppend(Head + [note] + SourceSetsOpen, Indented(deps));
    DependencyLinesAppend(Head + [note] + SourceSetsOpen + Indented(deps), Tail);
  }

  lemma DependenciesDeclared(k: Kind, prefix: string)
    ensures DependencyLines(Indented(Dependencies(k, prefix)))
      == Indented(UpstreamDependencies(Upstream(k), prefix))
  {
    var up := UpstreamDependencies(Upstream(k), prefix);
    var rest: seq<FixedLine> := [ModuleComment(k)] + (if k == Testing then [TestDependency] else []);
    assert Dependencies(k, prefix) == up + rest;
    IndentedAppend(up, rest);
    DependencyLinesAppend(Indented(up), Indented(rest));
    UpstreamAllDeclare(Upstream(k), prefix);
    IndentedFixed(rest);
    FixedNone(Indented(rest));
  }

  /** A sub-module of kind `k` declares exactly one project dependency per
      upstream kind, in order, each on the feature's own sub-module: none for
      public, public for impl, public then impl for testing. */
  lemma DependencyDirection(k: Kind, prefix: string)
    requires NoBreak(prefix)
    ensures DependencyLines(Lines(BuildFile(BlankTargetsLine, Dependencies(k, prefix))))
      == Indented(UpstreamDependencies(Upstream(k), prefix))
  {
    DependenciesNoBreak(k, prefix);
    BuildFileLines(BlankTargetsLine, Dependencies(k, prefix));
    BuildFileDependencyLines(BlankTargetsLine, Dependencies(k, prefix));
    DependenciesDeclared(k, prefix);
  }

  /** The ui creator's file declares no project dependency. */
  lemma MultiplatformNoDependencies()
    ensures DependencyLines(Lines(MultiplatformBuildFile)) == []
  {
    FixedLineFacts(CommonComment);
    BuildFileLines(TargetsComment, [CommonComment]);
    BuildFileDependencyLines(TargetsComment, [CommonComment]);
    IndentedFixed([CommonComment]);
    FixedNone(Indented([CommonComment]));
  }

  // Placeholder substitution.

  lemma BuildFileDollars(note: string, deps: seq<string>)
    requires Fixed(note)
    requires forall i | 0 <= i < |deps| :: '$' !in deps[i]
    ensures '$' !in BuildFile(note, deps)
  {
    var lines := BuildLines(note, deps);
    var d := |Head| + 1 + |SourceSetsOpen|;
    forall i | 0 <= i < |lines| ensures '$' !in lines[i] {
      SkeletonFixed(note, deps, i);
      FixedLineFacts(lines[i]);
      if d <= i < d + |deps| {
        DependencyLineOf(note, deps, i - d);
        FixedLineFacts(Indent16);
      }
    }
    CharNotInJoin(lines, "\n", '$');
  }

  /** The public default mentions no placeholder, so every substitution
      leaves it as it is. */
  lemma PublicUnaffected(directoryName: string, projectDirectory: string, namespace: string)
    ensures '$' !in DefaultTemplate(Public)
    ensures Resolve(DefaultTemplate(Public), directoryName, projectDirectory, namespace)
      == DefaultTemplate(Public)
    ensures ResolvePaths(DefaultTemplate(Public), directoryName, projectDirectory)
      == DefaultTemplate(Public)
  {
    var t := DefaultTemplate(Public);
    assert Dependencies(Public, PlaceholderPrefix) == [PublicComment];
    FixedLineFacts(PublicComment);
    BuildFileDollars(BlankTargetsLine, [PublicComment]);
    PlaceholderShapes();
    AbsentChar(DirectoryPlaceholder, t, '$');
    AbsentChar(ProjectPlaceholder, t, '$');
    AbsentChar(NamespacePlaceholder, t, '$');
    ReplaceAbsent(t, DirectoryPlaceholder, directoryName);
    ReplaceAbsent(t, ProjectPlaceholder, projectDirectory);
    ReplaceAbsent(t, NamespacePlaceholder, namespace);
  }

  lemma IndentedReplace(deps: seq<string>, p: string, v: string)
    requires |p| > 0 && p[0] == '$'
    ensures ReplaceEach(Indented(deps), p, v) == Indented(ReplaceEach(deps, p, v))
  {
    FixedLineFacts(Indent16);
    forall i | 0 <= i < |deps|
      ensures ReplaceAll(Indent16 + deps[i], p, v) == Indent16 + ReplaceAll(deps[i], p, v)
    {
      ReplaceSkipsPrefix(Indent16, deps[i], p, v);
    }
  }

  /** Substituting a placeholder in a build file substitutes it in the
      commonMain dependencies only. */
  lemma SubstituteBuildFile(note: string, deps: seq<string>, p: string, v: string)
    requires |p| > 0 && p[0] == '$' && '\n' !in p
    requires Fixed(note)
    ensures ReplaceAll(BuildFile(note, deps), p, v) == BuildFile(note, ReplaceEach(deps, p, v))
  {
    ReplaceByLines(BuildLines(note, deps), p, v);
    ReplaceEachAppend(Head, [note], p, v);
    ReplaceEachAppend(Head + [note], SourceSetsOpen, p, v);
    ReplaceEachAppend(Head + [note] + SourceSetsOpen, Indented(deps), p, v);
    ReplaceEachAppend(Head + [note] + SourceSetsOpen + Indented(deps), Tail, p, v);
    FixedUnchanged(Head, p, v);
    FixedUnchanged([note], p, v);
    FixedUnchanged(SourceSetsOpen, p, v);
    FixedUnchanged(Tail, p, v);
    IndentedReplace(deps, p, v);
  }

  /** Substitution inside a project dependency acts on the feature's path. */
  lemma SubstituteDependency(prefix: string, name: string, p: string, v: string)
    requires |p| > 0 && p[0] == '$' && ':' !in p && '$' !in name
    ensures ReplaceAll(ProjectDependency(prefix + ":" + name), p, v)
      == ProjectDependency(ReplaceAll(prefix, p, v) + ":" + name)
  {
    var opening := "implementation(project(\"";
    var closing := ":" + name + "\"))";
    var replaced := ReplaceAll(prefix, p, v);
    assert '$' !in opening;
    assert ProjectDependency(prefix + ":" + name) == opening + (prefix + closing);
    assert ProjectDependency(replaced + ":" + name) == opening + (replaced + closing);
    AbsentChar(p, closing, '$');
    ReplaceAbsent(closing, p, v);
    ReplaceSplitsAt(prefix, closing, p, v);
    assert ReplaceAll(prefix + closing, p, v) == replaced + closing;
    ReplaceSkipsPrefix(opening, prefix + closing, p, v);
  }

  lemma SubstituteDependencies(k: Kind, prefix: string, p: string, v: string)
    requires |p| > 0 && p[0] == '$' && ':' !in p
    ensures ReplaceEach(Dependencies(k, prefix), p, v) == Dependencies(k, ReplaceAll(prefix, p, v))
  {
    var us := Upstream(k);
    var up := UpstreamDependencies(us, prefix);
    var rest: seq<FixedLine> := [ModuleComment(k)] + (if k == Testing then [TestDependency] else []);
    ReplaceEachAppend(up, rest, p, v);
    forall i | 0 <= i < |us|
      ensures ReplaceAll(up[i], p, v) == ProjectDependency(ReplaceAll(prefix, p, v) + ":" + us[i].Name())
    {
      SubstituteDependency(prefix, us[i].Name(), p, v);
    }
    assert ReplaceEach(up, p, v) == UpstreamDependencies(us, ReplaceAll(prefix, p, v));
    FixedUnchanged(rest, p, v);
    assert Dependencies(k, prefix) == up + rest;
  }

  /** Substituting a placeholder in a default substitutes it in the
      feature's path. */
  lemma SubstituteDefault(k: Kind, prefix: string, p: string, v: string)
    requires |p| > 0 && p[0] == '$' && ':' !in p && '\n' !in p
    ensures ReplaceAll(BuildFile(BlankTargetsLine, Dependencies(k, prefix)), p, v)
      == BuildFile(BlankTargetsLine, Dependencies(k, ReplaceAll(prefix, p, v)))
  {
    SubstituteBuildFile(BlankTargetsLine, Dependencies(k, prefix), p, v);
    SubstituteDependencies(k, prefix, p, v);
  }

  lemma DirectoryInPrefix(directoryName: string)
    ensures ReplaceAll(PlaceholderPrefix, DirectoryPlaceholder, directoryName)
      == ProjectPlaceholder + ":" + directoryName
  {
    PlaceholderShapes();
    PlaceholdersDiffer();
    ReplaceAfterToken(ProjectPlaceholder, DirectoryPlaceholder, directoryName);
  }

  /** Replacing `p` in `t:p`, where `t` holds no occurrence of `p`, replaces
      the trailing `p` alone. */
  lemma ReplaceAfterToken(t: string, p: string, v: string)
    requires 0 < |p| <= |t| && t[..|p|] != p && p[0] !in t[1..] && p[0] != ':'
    ensures ReplaceAll(t + ":" + p, p, v) == t + ":" + v
  {
    assert p + "" == p;
    ReplaceAtStart(p, "", v);
    assert ReplaceAll(p, p, v) == v;
    ReplaceSkipsPrefix(":", p, p, v);
    ReplaceSkipsToken(t, ":" + p, p, v);
    assert t + ":" + p == t + (":" + p);
  }

  lemma ProjectInPrefix(directoryName: string, projectDirectory: string)
    requires '$' !in directoryName
    ensures ReplaceAll(ProjectPlaceholder + ":" + directoryName, ProjectPlaceholder, projectDirectory)
      == projectDirectory + ":" + directoryName
  {
    var p := ProjectPlaceholder;
    PlaceholderShapes();
    assert p + ":" + directoryName == p + (":" + directoryName);
    ReplaceAtStart(p, ":" + directoryName, projectDirectory);
    AbsentChar(p, ":" + directoryName, '$');
    ReplaceAbsent(":" + directoryName, p, projectDirectory);
  }

  lemma NamespaceInPrefix(prefix: string, namespace: string)
    requires '$' !in prefix
    ensures ReplaceAll(prefix, NamespacePlaceholder, namespace) == prefix
  {
    PlaceholderShapes();
    AbsentChar(NamespacePlaceholder, prefix, '$');
    ReplaceAbsent(prefix, NamespacePlaceholder, namespace);
  }

  /** Resolving a default fills the feature's path in: the dependencies
      name `<projectDirectory>:<directoryName>:<kind>`, provided the two
      values hold no `$` a later replacement could act on. */
  lemma ResolveDefault(k: Kind, directoryName: string, projectDirectory: string, namespace: string)
    requires '$' !in directoryName && '$' !in projectDirectory
    ensures Resolve(DefaultTemplate(k), directoryName, projectDirectory, namespace)
      == BuildFile(BlankTargetsLine, Dependencies(k, projectDirectory + ":" + directoryName))
    ensures ResolvePaths(DefaultTemplate(k), directoryName, projectDirectory)
      == BuildFile(BlankTargetsLine, Dependencies(k, projectDirectory + ":" + directoryName))
  {
    PlaceholderShapes();
    PlaceholderSeparators();
    SubstituteDefault(k, PlaceholderPrefix, DirectoryPlaceholder, directoryName);
    DirectoryInPrefix(directoryName);
    SubstituteDefault(k, ProjectPlaceholder + ":" + directoryName, ProjectPlaceholder, projectDirectory);
    ProjectInPrefix(directoryName, projectDirectory);
    var resolved := projectDirectory + ":" + directoryName;
    SubstituteDefault(k, resolved, NamespacePlaceholder, namespace);
    NamespaceInPrefix(resolved, namespace);
  }

  lemma NamespaceNotInPrefix(namespace: string)
    ensures ReplaceAll(PlaceholderPrefix, NamespacePlaceholder, namespace) == PlaceholderPrefix
  {
    var p := NamespacePlaceholder;
    PlaceholderShapes();
    PlaceholdersDiffer();
    ReplaceSkipsToken(ProjectPlaceholder, ":" + DirectoryPlaceholder, p, namespace);
    ReplaceSkipsPrefix(":", DirectoryPlaceholder, p, namespace);
    ReplaceSkipsToken(DirectoryPlaceholder, "", p, namespace);
    assert DirectoryPlaceholder + "" == DirectoryPlaceholder;
    assert PlaceholderPrefix == ProjectPlaceholder + (":" + DirectoryPlaceholder);
  }

  /** No default mentions the namespace placeholder. */
  lemma NamespaceUnused(k: Kind, namespace: string)
    ensures ReplaceAll(DefaultTemplate(k), NamespacePlaceholder, namespace) == DefaultTemplate(k)
  {
    PlaceholderShapes();
    PlaceholderSeparators();
    SubstituteDefault(k, PlaceholderPrefix, NamespacePlaceholder, namespace);
    NamespaceNotInPrefix(namespace);
  }

  /** After resolution a sub-module depends on its upstream siblings at the
      resolved feature path. */
  lemma ResolvedDependencies(k: Kind, directoryName: string, projectDirectory: string, namespace: string)
    requires '$' !in directoryName && '$' !in projectDirectory
    requires NoBreak(directoryName) && NoBreak(projectDirectory)
    ensures DependencyLines(Lines(Resolve(DefaultTemplate(k), directoryName, projectDirectory, namespace)))
      == Indented(UpstreamDependencies(Upstream(k), projectDirectory + ":" + directoryName))
  {
    ResolveDefault(k, directoryName, projectDirectory, namespace);
    DependencyDirection(k, projectDirectory + ":" + directoryName);
  }

  /** The creator's own fallback is the dialog default resolved with the
      project directory `:shared`. */
  lemma CreatorDefaultIsResolved(k: Kind, directoryName: string, namespace: string)
    requires '$' !in directoryName
    ensures CreatorDefault(k, directoryName) == Resolve(DefaultTemplate(k), directoryName, ":shared", namespace)
  {
    ResolveDefault(k, directoryName, ":shared", namespace);
    assert ":shared" + ":" + directoryName == ":shared:" + directoryName;
  }
}
