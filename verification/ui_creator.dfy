/** The Compose dialog's creator: the same sub-module skeleton as the
    new-feature creator, with one more directory named after the feature at
    the end of the namespace directories, the fixed multiplatform build file
    in every sub-module, and no change to the settings. */
module UiCreator {
  import opened Wrappers
  import opened Text
  import opened Kinds
  import opened Forms
  import opened FileSystem
  import opened Scaffold
  import opened Templates
  import opened Notices

  /** The namespace directories of a sub-module: one per `.`-segment of the
      namespace, then the feature's directory name. */
  function SourceSegments(req: CreateRequest): (r: seq<string>)
    ensures |r| > 0 && r[|r| - 1] == req.directoryName
    ensures r[..|r| - 1] == Split(req.namespace, '.')
  {
    Split(req.namespace, '.') + [req.directoryName]
  }

  /** The directories and files `createModules` lays down. */
  function UiPlan(parent: Path, req: CreateRequest): seq<Step> {
    Plan(parent, req.directoryName, req.selection.Kinds(), SourceSegments(req), k => MultiplatformBuildFile)
  }

  /** `createModules`: the plan, then exactly one notice, success or the
      failure of the step that stopped it. */
  function CreateModules(fs: Fs, refused: set<Path>, parent: Path, req: CreateRequest): (r: Effect)
    ensures |r.notices| == 1
    ensures r.notices[0] == ModulesCreated <==> Run(fs, refused, UiPlan(parent, req)).Done?
    ensures r.notices[0].CreationFailed? <==> Run(fs, refused, UiPlan(parent, req)).Stopped?
  {
    match Run(fs, refused, UiPlan(parent, req))
    case Done(f) => Effect(f, [ModulesCreated])
    case Stopped(f, _, e) => Effect(f, [CreationFailed(e)])
  }

  // ---------------------------------------------------------------------
  // Properties

  /** On success every selected sub-module `dir/<kind>` exists with
      `src/commonMain/kotlin`, one nested directory per namespace segment
      and below them one named after the feature, and its build file is the
      multiplatform file, which declares no project dependency. */
  lemma UiLayout(fs: Fs, refused: set<Path>, parent: Path, req: CreateRequest, k: Kind)
    requires CreateModules(fs, refused, parent, req).notices[0] == ModulesCreated
    requires req.selection.Has(k)
    ensures ModuleLaidOut(CreateModules(fs, refused, parent, req).fs, parent + [req.directoryName, k.Name()],
                          SourceSegments(req), MultiplatformBuildFile)
    ensures DependencyLines(Lines(MultiplatformBuildFile)) == []
  {
    KindsDistinct(req.selection);
    assert Distinct(req.selection.Kinds());
    PlanLayout(fs, refused, parent, req.directoryName, req.selection.Kinds(), SourceSegments(req),
               k => MultiplatformBuildFile, k);
    MultiplatformNoDependencies();
  }

  /** The creator changes no file that existed before, the settings file
      included, and removes nothing. */
  lemma UiKeepsFiles(fs: Fs, refused: set<Path>, parent: Path, req: CreateRequest, p: Path)
    requires WellFormed(fs) && p in fs.files
    ensures p in CreateModules(fs, refused, parent, req).fs.files
    ensures CreateModules(fs, refused, parent, req).fs.files[p] == fs.files[p]
    ensures fs.dirs <= CreateModules(fs, refused, parent, req).fs.dirs
  {
    PlanKeepsOldFiles(fs, refused, parent, req.directoryName, req.selection.Kinds(), SourceSegments(req),
                      k => MultiplatformBuildFile, p);
    RunGrows(fs, refused, UiPlan(parent, req));
  }

  /** A failure leaves what the steps before the failing one made, and the
      error names the path of the failing step. */
  lemma UiFailureKeepsPrefix(fs: Fs, refused: set<Path>, parent: Path, req: CreateRequest)
    requires CreateModules(fs, refused, parent, req).notices[0].CreationFailed?
    ensures var plan := UiPlan(parent, req);
      var at := Run(fs, refused, plan).at;
      var r := CreateModules(fs, refused, parent, req);
      && Run(fs, refused, plan[..at]) == Done(r.fs)
      && Apply(r.fs, refused, plan[at]) == Failure(r.notices[0].error)
      && r.notices[0].error.path == plan[at].path
  {
    StoppedAfterPrefix(fs, refused, UiPlan(parent, req));
  }

  /** A feature directory that already exists stops the creator at once,
      with nothing changed. */
  lemma UiOnExisting(fs: Fs, refused: set<Path>, parent: Path, req: CreateRequest)
    requires Exists(fs, parent + [req.directoryName])
    ensures CreateModules(fs, refused, parent, req)
      == Effect(fs, [CreationFailed(AlreadyExists(parent + [req.directoryName]))])
  {
    PlanOnExisting(fs, refused, parent, req.directoryName, req.selection.Kinds(), SourceSegments(req),
                   k => MultiplatformBuildFile);
  }

  /** With no sub-module selected only the feature directory is made, and
      success is still reported. */
  lemma UiEmptySelection(fs: Fs, refused: set<Path>, parent: Path, req: CreateRequest)
    requires !req.selection.Any()
    requires CanCreate(fs, parent + [req.directoryName]) && parent + [req.directoryName] !in refused
    ensures CreateModules(fs, refused, parent, req)
      == Effect(Fs(fs.dirs + {parent + [req.directoryName]}, fs.files), [ModulesCreated])
  {
    var main := parent + [req.directoryName];
    var next := Fs(fs.dirs + {main}, fs.files);
    var plan := UiPlan(parent, req);
    assert req.selection.Kinds() == [];
    assert plan == [MakeDir(main)];
    assert Apply(fs, refused, plan[0]) == Success(next);
    assert Run(next, refused, plan[1..]) == Done(next);
  }
}
