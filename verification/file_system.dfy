/** The IDE's virtual file system as far as the creators use it: a tree of
    directories and files addressed by paths of segments, changed one step
    at a time, where a failing step stops the run and nothing already done
    is undone. */
module FileSystem {
  import opened Wrappers

  /** A path from the file-system root, one segment per directory level. */
  type Path = seq<string>

  datatype Fs = Fs(dirs: set<Path>, files: map<Path, string>)

  predicate Exists(fs: Fs, p: Path) {
    p in fs.dirs || p in fs.files
  }

  /** A tree: the root is a directory, nothing is both a file and a
      directory, and everything but the root sits in a directory. */
  predicate WellFormed(fs: Fs) {
    && [] in fs.dirs
    && (forall p | p in fs.dirs :: p !in fs.files)
    && (forall p | p in fs.dirs && p != [] :: p[..|p| - 1] in fs.dirs)
    && (forall p | p in fs.files :: p != [] && p[..|p| - 1] in fs.dirs)
  }

  /** `createChildDirectory`, `createChildData` (an empty file) and
      `setBinaryContent`. */
  datatype Step = MakeDir(path: Path) | MakeFile(path: Path) | Write(path: Path, content: string)

  /** Why a step failed; the IDE's exception carries a message instead. */
  datatype FsError = AlreadyExists(path: Path) | NoParentDirectory(path: Path) | NotAFile(path: Path) | Refused(path: Path)

  /** A new child of an existing directory. */
  predicate CanCreate(fs: Fs, p: Path) {
    !Exists(fs, p) && p != [] && p[..|p| - 1] in fs.dirs
  }

  /** One step. `refused` is every path at which the host fails for reasons
      of its own (permissions, invalid names, a full disk). */
  function Apply(fs: Fs, refused: set<Path>, step: Step): (r: Result<Fs, FsError>)
    ensures r.Success? <==>
      (if step.Write? then step.path in fs.files else CanCreate(fs, step.path)) && step.path !in refused
    ensures r.Success? && step.MakeDir? ==> r.value == Fs(fs.dirs + {step.path}, fs.files)
    ensures r.Success? && step.MakeFile? ==> r.value == Fs(fs.dirs, fs.files[step.path := ""])
    ensures r.Success? && step.Write? ==> r.value == Fs(fs.dirs, fs.files[step.path := step.content])
    ensures r.Failure? ==> r.error.path == step.path
    ensures WellFormed(fs) && r.Success? ==> WellFormed(r.value)
  {
    match step
    case MakeDir(p) =>
      if Exists(fs, p) then Failure(AlreadyExists(p))
      else if p == [] || p[..|p| - 1] !in fs.dirs then Failure(NoParentDirectory(p))
      else if p in refused then Failure(Refused(p))
      else Success(fs.(dirs := fs.dirs + {p}))
    case MakeFile(p) =>
      if Exists(fs, p) then Failure(AlreadyExists(p))
      else if p == [] || p[..|p| - 1] !in fs.dirs then Failure(NoParentDirectory(p))
      else if p in refused then Failure(Refused(p))
      else Success(fs.(files := fs.files[p := ""]))
    case Write(p, c) =>
      if p !in fs.files then Failure(NotAFile(p))
      else if p in refused then Failure(Refused(p))
      else Success(fs.(files := fs.files[p := c]))
  }

  /** Reading a file's content (`contentsToByteArray`). */
  function Read(fs: Fs, p: Path): (r: Result<string, FsError>)
    ensures r.Success? <==> p in fs.files
    ensures r.Success? ==> r.value == fs.files[p]
  {
    if p in fs.files then Success(fs.files[p]) else Failure(NotAFile(p))
  }

  /** The end of a run: every step done, or the state reached when step
      `at` failed. */
  datatype Outcome = Done(fs: Fs) | Stopped(fs: Fs, at: nat, error: FsError)

  /** The steps in order, stopping at the first failure. */
  function Run(fs: Fs, refused: set<Path>, steps: seq<Step>): (r: Outcome)
    ensures r.Stopped? ==> r.at < |steps|
    decreases |steps|
  {
    if |steps| == 0 then Done(fs)
    else match Apply(fs, refused, steps[0])
      case Failure(e) => Stopped(fs, 0, e)
      case Success(next) =>
        match Run(next, refused, steps[1..])
        case Done(f) => Done(f)
        case Stopped(f, i, e) => Stopped(f, i + 1, e)
  }

  /** The paths a run writes content to. */
  function WritePaths(steps: seq<Step>): set<Path> {
    set i | 0 <= i < |steps| && steps[i].Write? :: steps[i].path
  }

  // ---------------------------------------------------------------------
  // Runs

  /** Running two step lists one after the other is running their
      concatenation. */
  lemma {:induction false} RunAppend(fs: Fs, refused: set<Path>, a: seq<Step>, b: seq<Step>)
    ensures Run(fs, refused, a + b) ==
      match Run(fs, refused, a)
      case Done(f) =>
        (match Run(f, refused, b)
         case Done(g) => Done(g)
         case Stopped(g, i, e) => Stopped(g, |a| + i, e))
      case Stopped(f, i, e) => Stopped(f, i, e)
    decreases |a|
  {
    if |a| == 0 {
      assert a + b == b;
      match Run(fs, refused, b)
      case Done(g) =>
      case Stopped(g, i, e) =>
    } else {
      assert (a + b)[0] == a[0];
      assert (a + b)[1..] == a[1..] + b;
      match Apply(fs, refused, a[0])
      case Failure(e) =>
      case Success(next) =>
        RunAppend(next, refused, a[1..], b);
    }
  }

  /** No rollback: a run that stops leaves exactly what the steps before
      the failing one made, and that step fails there. */
  lemma {:induction false} StoppedAfterPrefix(fs: Fs, refused: set<Path>, steps: seq<Step>)
    requires Run(fs, refused, steps).Stopped?
    ensures Run(fs, refused, steps[..Run(fs, refused, steps).at]) == Done(Run(fs, refused, steps).fs)
    ensures Apply(Run(fs, refused, steps).fs, refused, steps[Run(fs, refused, steps).at])
      == Failure(Run(fs, refused, steps).error)
    decreases |steps|
  {
    var r := Run(fs, refused, steps);
    match Apply(fs, refused, steps[0])
    case Failure(e) =>
      assert steps[..0] == [];
    case Success(next) =>
      StoppedAfterPrefix(next, refused, steps[1..]);
      assert steps[..r.at][0] == steps[0];
      assert steps[..r.at][1..] == steps[1..][..r.at - 1];
  }

  /** Nothing is ever removed: directories stay, files stay. */
  lemma {:induction false} RunGrows(fs: Fs, refused: set<Path>, steps: seq<Step>)
    ensures fs.dirs <= Run(fs, refused, steps).fs.dirs
    ensures fs.files.Keys <= Run(fs, refused, steps).fs.files.Keys
    decreases |steps|
  {
    if |steps| > 0 {
      match Apply(fs, refused, steps[0])
      case Failure(e) =>
      case Success(next) =>
        RunGrows(next, refused, steps[1..]);
    }
  }

  /** Every run keeps the file system a tree. */
  lemma {:induction false} RunWellFormed(fs: Fs, refused: set<Path>, steps: seq<Step>)
    requires WellFormed(fs)
    ensures WellFormed(Run(fs, refused, steps).fs)
    decreases |steps|
  {
    if |steps| > 0 {
      match Apply(fs, refused, steps[0])
      case Failure(e) =>
      case Success(next) =>
        RunWellFormed(next, refused, steps[1..]);
    }
  }

  /** A completed run has made every directory it was asked for. */
  lemma {:induction false} RunMakesDir(fs: Fs, refused: set<Path>, steps: seq<Step>, p: Path)
    requires Run(fs, refused, steps).Done?
    requires MakeDir(p) in steps
    ensures p in Run(fs, refused, steps).fs.dirs
    decreases |steps|
  {
    match Apply(fs, refused, steps[0])
    case Success(next) =>
      if steps[0] == MakeDir(p) {
        RunGrows(next, refused, steps[1..]);
      } else {
        assert MakeDir(p) in steps[1..] by {
          var i :| 0 <= i < |steps| && steps[i] == MakeDir(p);
          assert steps[1..][i - 1] == steps[i];
        }
        RunMakesDir(next, refused, steps[1..], p);
      }
  }

  /** A file no step writes keeps its content. */
  lemma {:induction false} RunKeepsFile(fs: Fs, refused: set<Path>, steps: seq<Step>, p: Path)
    requires p in fs.files && p !in WritePaths(steps)
    ensures p in Run(fs, refused, steps).fs.files
    ensures Run(fs, refused, steps).fs.files[p] == fs.files[p]
    decreases |steps|
  {
    if |steps| > 0 {
      match Apply(fs, refused, steps[0])
      case Failure(e) =>
      case Success(next) =>
        assert WritePaths(steps[1..]) <= WritePaths(steps) by {
          forall q | q in WritePaths(steps[1..]) ensures q in WritePaths(steps) {
            var i :| 0 <= i < |steps[1..]| && steps[1..][i].Write? && steps[1..][i].path == q;
            assert steps[i + 1] == steps[1..][i];
          }
        }
        assert steps[0].Write? ==> steps[0].path in WritePaths(steps);
        RunKeepsFile(next, refused, steps[1..], p);
    }
  }

  /** A completed run that ends by writing `c` to `p` leaves `c` there. */
  lemma RunEndsWithWrite(fs: Fs, refused: set<Path>, steps: seq<Step>, p: Path, c: string)
    requires Run(fs, refused, steps + [Write(p, c)]).Done?
    ensures p in Run(fs, refused, steps + [Write(p, c)]).fs.files
    ensures Run(fs, refused, steps + [Write(p, c)]).fs.files[p] == c
  {
    RunAppend(fs, refused, steps, [Write(p, c)]);
  }

  /** Reading a file back after writing it gives what was written, and
      writing one file leaves what every other path reads. */
  lemma ReadAfterWrite(fs: Fs, refused: set<Path>, p: Path, c: string, q: Path)
    requires Apply(fs, refused, Write(p, c)).Success?
    ensures Read(Apply(fs, refused, Write(p, c)).value, p) == Success(c)
    ensures q != p ==> Read(Apply(fs, refused, Write(p, c)).value, q) == Read(fs, q)
  {
  }

  lemma WritePathsAppend(a: seq<Step>, b: seq<Step>)
    ensures WritePaths(a + b) == WritePaths(a) + WritePaths(b)
  {
    forall q | q in WritePaths(a + b) ensures q in WritePaths(a) + WritePaths(b) {
      var i :| 0 <= i < |a + b| && (a + b)[i].Write? && (a + b)[i].path == q;
      if i >= |a| {
        assert b[i - |a|] == (a + b)[i];
      }
    }
    forall q | q in WritePaths(a) ensures q in WritePaths(a + b) {
      var i :| 0 <= i < |a| && a[i].Write? && a[i].path == q;
      assert (a + b)[i] == a[i];
    }
    forall q | q in WritePaths(b) ensures q in WritePaths(a + b) {
      var i :| 0 <= i < |b| && b[i].Write? && b[i].path == q;
      assert (a + b)[|a| + i] == b[i];
    }
  }
}
