/** The new-feature creator: it lays down the selected sub-modules of a
    feature, each with its build file taken from the dialog or from its own
    fallback, and then registers the sub-modules in the project's
    settings.gradle.kts. */
module FeatureCreator {
  import opened Wrappers
  import opened Text
  import opened Lists
  import opened Kinds
  import opened Forms
  import opened FileSystem
  import opened Scaffold
  import opened Templates
  import opened SettingsMerge
  import opened Notices

  const SettingsFileName: string := "settings.gradle.kts"

  /** What the creator learns from the IDE: the paths at which the host
      refuses to create or write, the project's base directory (if any),
      and the parent directory's path relative to that base as the host
      prints it (segments separated by `/`). */
  datatype Host = Host(refused: set<Path>, base: Option<Path>, relative: string)

  function SettingsPath(base: Path): Path {
    base + [SettingsFileName]
  }

  /** The Gradle path of the parent directory: empty at the project root,
      otherwise `:` and the relative path with every `/` turned into `:`. */
  function PathPrefix(relative: string): (r: string)
    ensures r == [] <==> relative == []
    ensures r != [] ==> r[0] == ':'
    ensures '/' !in r
  {
    if relative == [] then []
    else
      ReplaceCharIsSplitJoin(relative, '/', ":");
      CharNotInJoin(Split(relative, '/'), ":", '/');
      ":" + ReplaceAll(relative, "/", ":")
  }

  /** A relative path `s1/…/sn` becomes `:s1:…:sn`. */
  lemma PathPrefixOfSegments(segments: seq<string>)
    requires |segments| > 0
    requires forall i | 0 <= i < |segments| :: segments[i] != [] && '/' !in segments[i]
    ensures PathPrefix(Join(segments, "/")) == ":" + Join(segments, ":")
  {
    var relative := Join(segments, "/");
    assert relative != [] by {
      JoinAround(segments, "/", 0);
    }
    ReplaceCharIsSplitJoin(relative, '/', ":");
    SplitJoin(segments, '/');
  }

  /** `:<directoryName>:<kind>` for each sub-module, in order. */
  function ModuleNames(directoryName: string, kinds: seq<Kind>): seq<string> {
    seq(|kinds|, i requires 0 <= i < |kinds| => ":" + directoryName + ":" + kinds[i].Name())
  }

  /** The module names placed under the parent's Gradle path. */
  function Prefixed(relative: string, names: seq<string>): seq<string> {
    seq(|names|, i requires 0 <= i < |names| => PathPrefix(relative) + names[i])
  }

  /** The paths registered for the sub-modules `kinds`. */
  function NewEntries(relative: string, directoryName: string, kinds: seq<Kind>): (r: seq<string>)
    ensures |r| == |kinds|
    ensures forall i | 0 <= i < |kinds| :: r[i] == PathPrefix(relative) + ":" + directoryName + ":" + kinds[i].Name()
  {
    Prefixed(relative, ModuleNames(directoryName, kinds))
  }

  /** Paths built from quote-free, single-line names survive being written
      as directives and read back. */
  lemma NewEntriesAreEntries(relative: string, directoryName: string, kinds: seq<Kind>)
    requires '"' !in relative && NoBreak(relative)
    requires '"' !in directoryName && NoBreak(directoryName)
    ensures AllEntries(NewEntries(relative, directoryName, kinds))
  {
    var prefix := PathPrefix(relative);
    var parts := Split(relative, '/');
    SplitPartsWithin(relative, '/', '"');
    SplitPartsWithin(relative, '/', '\n');
    SplitPartsWithin(relative, '/', '\r');
    ReplaceCharIsSplitJoin(relative, '/', ":");
    CharNotInJoin(parts, ":", '"');
    CharNotInJoin(parts, ":", '\n');
    CharNotInJoin(parts, ":", '\r');
    assert '"' !in prefix && NoBreak(prefix);
    forall i | 0 <= i < |kinds| ensures IsEntry(NewEntries(relative, directoryName, kinds)[i]) {
      var e := NewEntries(relative, directoryName, kinds)[i];
      assert e == prefix + (":" + directoryName + ":" + kinds[i].Name());
    }
  }

  /** The build file a sub-module gets: the dialog's template, or else the
      creator's own fallback. */
  function ContentOf(templates: Overrides, directoryName: string): Kind -> string {
    k => templates.For(k).GetOr(CreatorDefault(k, directoryName))
  }

  lemma ContentOfChoice(templates: Overrides, directoryName: string, k: Kind)
    ensures templates.For(k).Some? ==> ContentOf(templates, directoryName)(k) == templates.For(k).value
    ensures templates.For(k).None? ==> ContentOf(templates, directoryName)(k) == CreatorDefault(k, directoryName)
  {
  }

  /** The directories and files `createModules` lays down. */
  function FeaturePlan(parent: Path, req: FeatureRequest): seq<Step> {
    Plan(parent, req.request.directoryName, req.request.selection.Kinds(),
         Split(req.request.namespace, '.'), ContentOf(req.templates, req.request.directoryName))
  }

  /** The rewrite `addModulesToSettings` applies to the settings text: the
      merge with the module names placed under the parent's Gradle path. */
  function Register(relative: string, names: seq<string>): string -> string {
    text => Merge(text, Prefixed(relative, names))
  }

  /** `addModulesToSettings` with its rewrite `rewrite`: nothing without a
      base directory or without a settings file; otherwise the file is read,
      rewritten and written back, and a failure on the way is reported as a
      warning. */
  function UpdateSettings(fs: Fs, host: Host, rewrite: string -> string): (r: Effect)
    ensures |r.notices| <= 1
    ensures r.fs.dirs == fs.dirs && r.fs.files.Keys == fs.files.Keys
    ensures forall p | p in fs.files && (host.base.None? || p != SettingsPath(host.base.value)) ::
      r.fs.files[p] == fs.files[p]
  {
    if host.base.None? then Effect(fs, [])
    else
      var path := SettingsPath(host.base.value);
      if !Exists(fs, path) then Effect(fs, [])
      else
        match Read(fs, path)
        case Failure(e) => Effect(fs, [SettingsNotUpdated(e)])
        case Success(text) =>
          match Apply(fs, host.refused, Write(path, rewrite(text)))
          case Failure(e) => Effect(fs, [SettingsNotUpdated(e)])
          case Success(next) => Effect(next, [SettingsUpdated])
  }

  /** What `createModules` does once the plan has run: a failing step ends
      everything with one error notice and nothing undone; otherwise, when
      any sub-module was asked for, the settings update follows, and the
      success notice comes last. */
  function Finish(host: Host, outcome: Outcome, names: seq<string>): (r: Effect)
    ensures |r.notices| > 0
    ensures r.notices[0].CreationFailed? <==> outcome.Stopped?
    ensures r.notices[0].CreationFailed? ==> r == Effect(outcome.fs, [CreationFailed(outcome.error)])
    ensures !r.notices[0].CreationFailed? ==> r.notices[|r.notices| - 1] == ModulesCreated
    ensures r.fs.dirs == outcome.fs.dirs && r.fs.files.Keys == outcome.fs.files.Keys
    ensures forall p | p in outcome.fs.files && (host.base.None? || p != SettingsPath(host.base.value)) ::
      r.fs.files[p] == outcome.fs.files[p]
  {
    match outcome
    case Stopped(f, _, e) => Effect(f, [CreationFailed(e)])
    case Done(f) =>
      if |names| == 0 then Effect(f, [ModulesCreated])
      else
        var s := UpdateSettings(f, host, Register(host.relative, names));
        Effect(s.fs, s.notices + [ModulesCreated])
  }

  /** `createModules`: the plan, then the settings. */
  function CreateModules(fs: Fs, host: Host, parent: Path, req: FeatureRequest): (r: Effect)
    ensures |r.notices| > 0
    ensures r.notices[0].CreationFailed? <==> Run(fs, host.refused, FeaturePlan(parent, req)).Stopped?
    ensures r.notices[0].CreationFailed? ==> |r.notices| == 1
    ensures !r.notices[0].CreationFailed? ==> r.notices[|r.notices| - 1] == ModulesCreated
  {
    Finish(host, Run(fs, host.refused, FeaturePlan(parent, req)),
           ModuleNames(req.request.directoryName, req.request.selection.Kinds()))
  }

  // ---------------------------------------------------------------------
  // Properties

  /** On success every selected sub-module `dir/<kind>` exists with
      `src/commonMain/kotlin` and one nested directory per `.`-segment of
      the namespace, and its build file holds the dialog's template or, when
      none was given, the creator's fallback. */
  lemma CreateLayout(fs: Fs, host: Host, parent: Path, req: FeatureRequest, k: Kind)
    requires Run(fs, host.refused, FeaturePlan(parent, req)).Done?
    requires req.request.selection.Has(k)
    ensures ModuleLaidOut(CreateModules(fs, host, parent, req).fs, parent + [req.request.directoryName, k.Name()],
                          Split(req.request.namespace, '.'), ContentOf(req.templates, req.request.directoryName)(k))
  {
    var d := req.request.directoryName;
    var dir := parent + [d, k.Name()];
    var outcome := Run(fs, host.refused, FeaturePlan(parent, req));
    var names := ModuleNames(d, req.request.selection.Kinds());
    assert CreateModules(fs, host, parent, req) == Finish(host, outcome, names);
    FeatureLayout(fs, host.refused, parent, req, k);
    ModuleIsNotSettings(dir, host);
    FinishKeepsLayout(host, outcome, names, dir, Split(req.request.namespace, '.'), ContentOf(req.templates, d)(k));
  }

  /** A sub-module's build file is never the settings file. */
  lemma ModuleIsNotSettings(dir: Path, host: Host)
    ensures host.base.None? || dir + [BuildFileName] != SettingsPath(host.base.value)
  {
    if host.base.Some? {
      var b := dir + [BuildFileName];
      var s := SettingsPath(host.base.value);
      assert b[|b| - 1] == BuildFileName && s[|s| - 1] == SettingsFileName;
    }
  }

  /** The settings update leaves a sub-module's layout as the plan made it. */
  lemma FinishKeepsLayout(host: Host, outcome: Outcome, names: seq<string>, dir: Path, segments: seq<string>,
                          content: string)
    requires host.base.None? || dir + [BuildFileName] != SettingsPath(host.base.value)
    requires ModuleLaidOut(outcome.fs, dir, segments, content)
    ensures ModuleLaidOut(Finish(host, outcome, names).fs, dir, segments, content)
  {
  }

  /** The layout a completed plan leaves for a selected kind. */
  lemma FeatureLayout(fs: Fs, refused: set<Path>, parent: Path, req: FeatureRequest, k: Kind)
    requires Run(fs, refused, FeaturePlan(parent, req)).Done?
    requires req.request.selection.Has(k)
    ensures ModuleLaidOut(Run(fs, refused, FeaturePlan(parent, req)).fs, parent + [req.request.directoryName, k.Name()],
                          Split(req.request.namespace, '.'), ContentOf(req.templates, req.request.directoryName)(k))
  {
    var d := req.request.directoryName;
    var kinds := req.request.selection.Kinds();
    assert Distinct(kinds) by {
      KindsDistinct(req.request.selection);
    }
    PlanLayout(fs, refused, parent, d, kinds, Split(req.request.namespace, '.'), ContentOf(req.templates, d), k);
  }

  /** The plan changes no file that existed before. */
  lemma PlanKeepsFiles(fs: Fs, refused: set<Path>, parent: Path, req: FeatureRequest, p: Path)
    requires WellFormed(fs) && p in fs.files
    ensures p in Run(fs, refused, FeaturePlan(parent, req)).fs.files
    ensures Run(fs, refused, FeaturePlan(parent, req)).fs.files[p] == fs.files[p]
  {
    PlanKeepsOldFiles(fs, refused, parent, req.request.directoryName, req.request.selection.Kinds(),
                      Split(req.request.namespace, '.'), ContentOf(req.templates, req.request.directoryName), p);
  }

  /** The creator changes no file that existed before, except the settings
      file, and removes nothing. */
  lemma CreateKeepsFiles(fs: Fs, host: Host, parent: Path, req: FeatureRequest, p: Path)
    requires WellFormed(fs)
    requires p in fs.files && (host.base.None? || p != SettingsPath(host.base.value))
    ensures p in CreateModules(fs, host, parent, req).fs.files
    ensures CreateModules(fs, host, parent, req).fs.files[p] == fs.files[p]
    ensures fs.dirs <= CreateModules(fs, host, parent, req).fs.dirs
  {
    var plan := FeaturePlan(parent, req);
    RunGrows(fs, host.refused, plan);
    PlanKeepsFiles(fs, host.refused, parent, req, p);
  }

  /** After a successful plan with at least one sub-module, an existing
      settings file that the host lets be written ends up holding the merge
      of its old text with the new paths, and the settings notice precedes
      the success notice. */
  lemma CreateRegisters(fs: Fs, host: Host, parent: Path, req: FeatureRequest)
    requires Run(fs, host.refused, FeaturePlan(parent, req)).Done?
    requires req.request.selection.Any()
    requires host.base.Some? && SettingsPath(host.base.value) in fs.files
    requires SettingsPath(host.base.value) !in host.refused
    ensures var r := CreateModules(fs, host, parent, req);
      var path := SettingsPath(host.base.value);
      && path in r.fs.files
      && r.fs.files[path] == Merge(fs.files[path],
           NewEntries(host.relative, req.request.directoryName, req.request.selection.Kinds()))
      && r.notices == [SettingsUpdated, ModulesCreated]
  {
    var path := SettingsPath(host.base.value);
    var plan := FeaturePlan(parent, req);
    PlanWritePaths(parent, req.request.directoryName, req.request.selection.Kinds(),
                   Split(req.request.namespace, '.'), ContentOf(req.templates, req.request.directoryName));
    forall k | k in req.request.selection.Kinds()
      ensures path != BuildFilePath(parent + [req.request.directoryName], k)
    {
      var dir := parent + [req.request.directoryName, k.Name()];
      ModuleIsNotSettings(dir, host);
      assert dir + [BuildFileName] == BuildFilePath(parent + [req.request.directoryName], k);
    }
    RunKeepsFile(fs, host.refused, plan, path);
    var f := Run(fs, host.refused, plan).fs;
    var names := ModuleNames(req.request.directoryName, req.request.selection.Kinds());
    FinishRewrites(f, host, names);
    RegisterIsMerge(host.relative, req.request.directoryName, req.request.selection.Kinds(), f.files[path]);
  }

  /** After a completed plan, a settings file the host lets be written
      gets the rewrite of its text. */
  lemma FinishRewrites(f: Fs, host: Host, names: seq<string>)
    requires |names| > 0
    requires host.base.Some? && SettingsPath(host.base.value) in f.files
    requires SettingsPath(host.base.value) !in host.refused
    ensures var r := Finish(host, Done(f), names);
      var path := SettingsPath(host.base.value);
      && path in r.fs.files
      && r.fs.files[path] == Register(host.relative, names)(f.files[path])
      && r.notices == [SettingsUpdated, ModulesCreated]
  {
    var rewrite := Register(host.relative, names);
    SettingsRewritten(f, host, rewrite);
    var s := UpdateSettings(f, host, rewrite);
    assert Finish(host, Done(f), names) == Effect(s.fs, s.notices + [ModulesCreated]);
  }

  lemma RegisterIsMerge(relative: string, directoryName: string, kinds: seq<Kind>, text: string)
    ensures Register(relative, ModuleNames(directoryName, kinds))(text)
      == Merge(text, NewEntries(relative, directoryName, kinds))
  {
  }

  /** A settings file the host lets be written gets the rewrite of its text. */
  lemma SettingsRewritten(f: Fs, host: Host, rewrite: string -> string)
    requires host.base.Some? && SettingsPath(host.base.value) in f.files
    requires SettingsPath(host.base.value) !in host.refused
    ensures var path := SettingsPath(host.base.value);
      UpdateSettings(f, host, rewrite)
        == Effect(Fs(f.dirs, f.files[path := rewrite(f.files[path])]), [SettingsUpdated])
  {
  }

  /** With no sub-module, without a base directory or without a settings
      file, the settings are left as they are and only success is
      reported. */
  lemma CreateSkipsSettings(fs: Fs, host: Host, parent: Path, req: FeatureRequest)
    requires Run(fs, host.refused, FeaturePlan(parent, req)).Done?
    requires !req.request.selection.Any() || host.base.None?
      || !Exists(Run(fs, host.refused, FeaturePlan(parent, req)).fs, SettingsPath(host.base.value))
    ensures CreateModules(fs, host, parent, req)
      == Effect(Run(fs, host.refused, FeaturePlan(parent, req)).fs, [ModulesCreated])
  {
  }

  /** A settings file the host will not write, or a directory in its
      place, costs a warning and nothing else: the sub-modules stay. */
  lemma CreateWarns(fs: Fs, host: Host, parent: Path, req: FeatureRequest)
    requires WellFormed(fs)
    requires Run(fs, host.refused, FeaturePlan(parent, req)).Done?
    requires req.request.selection.Any() && host.base.Some?
    requires var f := Run(fs, host.refused, FeaturePlan(parent, req)).fs;
      var path := SettingsPath(host.base.value);
      path in f.dirs || (path in f.files && path in host.refused)
    ensures var r := CreateModules(fs, host, parent, req);
      && r.fs == Run(fs, host.refused, FeaturePlan(parent, req)).fs
      && |r.notices| == 2 && r.notices[0].SettingsNotUpdated? && r.notices[1] == ModulesCreated
  {
    var f := Run(fs, host.refused, FeaturePlan(parent, req)).fs;
    var names := ModuleNames(req.request.directoryName, req.request.selection.Kinds());
    RunWellFormed(fs, host.refused, FeaturePlan(parent, req));
    SettingsWarning(f, host, Register(host.relative, names));
  }

  lemma SettingsWarning(f: Fs, host: Host, rewrite: string -> string)
    requires WellFormed(f) && host.base.Some?
    requires var path := SettingsPath(host.base.value);
      path in f.dirs || (path in f.files && path in host.refused)
    ensures var r := UpdateSettings(f, host, rewrite);
      r.fs == f && |r.notices| == 1 && r.notices[0].SettingsNotUpdated?
  {
  }

  /** The fallback build files follow the dependency direction public ←
      impl ← testing, at the feature's path under `:shared`. */
  lemma FallbackDependencies(k: Kind, directoryName: string)
    requires NoBreak(directoryName)
    ensures DependencyLines(Lines(CreatorDefault(k, directoryName)))
      == Indented(UpstreamDependencies(Upstream(k), ":shared:" + directoryName))
  {
    assert NoBreak(":shared:" + directoryName);
    DependencyDirection(k, ":shared:" + directoryName);
  }

  /** In particular the impl fallback depends on `:shared:<dir>:public`
      alone. */
  lemma FallbackImpl(directoryName: string)
    requires NoBreak(directoryName)
    ensures DependencyLines(Lines(CreatorDefault(Impl, directoryName)))
      == [ScriptLines.Indent16 + ProjectDependency(":shared:" + directoryName + ":public")]
  {
    FallbackDependencies(Impl, directoryName);
    assert ":shared:" + directoryName + ":" + Public.Name() == ":shared:" + directoryName + ":public";
  }
}
