/** The directory layout both creators lay down: a feature directory, and in
    it one directory per selected sub-module holding `src/commonMain/kotlin`
    with nested source directories, and the sub-module's build file. */
module Scaffold {
  import opened FileSystem
  import opened Kinds

  const SourceRoot: Path := ["src", "commonMain", "kotlin"]
  const BuildFileName: string := "build.gradle.kts"

  /** One directory per segment, each inside the previous one. */
  function NestedDirs(root: Path, segments: seq<string>): (r: seq<Step>)
    ensures |r| == |segments|
    ensures forall i | 0 <= i < |r| :: r[i] == MakeDir(root + segments[..i + 1])
    decreases |segments|
  {
    if |segments| == 0 then []
    else
      var rest := NestedDirs(root + [segments[0]], segments[1..]);
      assert forall i | 0 <= i < |rest| :: rest[i] == MakeDir(root + segments[..i + 2]) by {
        forall i | 0 <= i < |rest| ensures rest[i] == MakeDir(root + segments[..i + 2]) {
          assert root + [segments[0]] + segments[1..][..i + 1] == root + segments[..i + 2];
        }
      }
      assert root + [segments[0]] == root + segments[..1];
      [MakeDir(root + [segments[0]])] + rest
  }

  /** The steps for one sub-module directory `dir`: the directory, the
      source root, the nested source directories, then an empty build file
      that is filled with `content`. */
  function ModuleSteps(dir: Path, segments: seq<string>, content: string): seq<Step> {
    [MakeDir(dir), MakeDir(dir + ["src"]), MakeDir(dir + ["src", "commonMain"]), MakeDir(dir + SourceRoot)]
      + NestedDirs(dir + SourceRoot, segments)
      + [MakeFile(dir + [BuildFileName]), Write(dir + [BuildFileName], content)]
  }

  /** The sub-modules `kinds` of the feature directory `main`, one after the
      other; `contentOf` gives each one's build file. */
  function KindSteps(main: Path, kinds: seq<Kind>, segments: seq<string>, contentOf: Kind -> string): seq<Step>
    decreases |kinds|
  {
    if |kinds| == 0 then []
    else
      ModuleSteps(main + [kinds[0].Name()], segments, contentOf(kinds[0]))
        + KindSteps(main, kinds[1..], segments, contentOf)
  }

  /** The whole plan for a feature `directoryName` inside `parent`. */
  function Plan(parent: Path, directoryName: string, kinds: seq<Kind>, segments: seq<string>,
                contentOf: Kind -> string): seq<Step>
  {
    [MakeDir(parent + [directoryName])] + KindSteps(parent + [directoryName], kinds, segments, contentOf)
  }

  predicate Distinct(kinds: seq<Kind>) {
    forall i, j | 0 <= i < j < |kinds| :: kinds[i] != kinds[j]
  }

  /** The build file of sub-module `k` of the feature directory `main`. */
  function BuildFilePath(main: Path, k: Kind): Path {
    main + [k.Name(), BuildFileName]
  }

  // ---------------------------------------------------------------------
  // Shape of the plan

  /** Laying down two lists of sub-modules is laying down their
      concatenation. */
  lemma {:induction false} KindStepsAppend(main: Path, a: seq<Kind>, b: seq<Kind>, segments: seq<string>,
                                          contentOf: Kind -> string)
    ensures KindSteps(main, a + b, segments, contentOf)
      == KindSteps(main, a, segments, contentOf) + KindSteps(main, b, segments, contentOf)
    decreases |a|
  {
    if |a| == 0 {
      assert a + b == b;
    } else {
      assert (a + b)[0] == a[0];
      assert (a + b)[1..] == a[1..] + b;
      KindStepsAppend(main, a[1..], b, segments, contentOf);
    }
  }

  /** The feature directory comes first, and sub-module `i` is begun before
      sub-module `j` whenever `i < j`. */
  lemma PlanOrder(parent: Path, directoryName: string, kinds: seq<Kind>, segments: seq<string>,
                  contentOf: Kind -> string, i: nat, j: nat)
    requires i < j < |kinds|
    ensures Plan(parent, directoryName, kinds, segments, contentOf)[0] == MakeDir(parent + [directoryName])
    ensures var plan := Plan(parent, directoryName, kinds, segments, contentOf);
      var main := parent + [directoryName];
      exists a, b | 0 < a < b < |plan| ::
        plan[a] == MakeDir(main + [kinds[i].Name()]) && plan[b] == MakeDir(main + [kinds[j].Name()])
  {
    var main := parent + [directoryName];
    var plan := Plan(parent, directoryName, kinds, segments, contentOf);
    var before := KindSteps(main, kinds[..i], segments, contentOf);
    var first := ModuleSteps(main + [kinds[i].Name()], segments, contentOf(kinds[i]));
    var between := KindSteps(main, kinds[i + 1..j], segments, contentOf);
    var second := ModuleSteps(main + [kinds[j].Name()], segments, contentOf(kinds[j]));
    var after := KindSteps(main, kinds[j + 1..], segments, contentOf);
    assert plan == [MakeDir(main)] + (before + (first + (between + (second + after)))) by {
      KindStepsAround(main, kinds, segments, contentOf, i, j);
    }
    var a := 1 + |before|;
    var b := 1 + |before| + |first| + |between|;
    assert plan[a] == first[0];
    assert plan[b] == second[0];
  }

  /** The blocks of the sub-modules before `i`, of `i`, between `i` and `j`,
      of `j` and after `j`, in this order. */
  lemma KindStepsAround(main: Path, kinds: seq<Kind>, segments: seq<string>,
                        contentOf: Kind -> string, i: nat, j: nat)
    requires i < j < |kinds|
    ensures KindSteps(main, kinds, segments, contentOf)
      == KindSteps(main, kinds[..i], segments, contentOf)
         + (ModuleSteps(main + [kinds[i].Name()], segments, contentOf(kinds[i]))
         + (KindSteps(main, kinds[i + 1..j], segments, contentOf)
         + (ModuleSteps(main + [kinds[j].Name()], segments, contentOf(kinds[j]))
         + KindSteps(main, kinds[j + 1..], segments, contentOf))))
  {
    var tail := [kinds[j]] + kinds[j + 1..];
    var rest := kinds[i + 1..j] + tail;
    assert kinds == kinds[..i] + ([kinds[i]] + rest);
    KindStepsAppend(main, kinds[..i], [kinds[i]] + rest, segments, contentOf);
    KindStepsAppend(main, [kinds[i]], rest, segments, contentOf);
    KindStepsAppend(main, kinds[i + 1..j], tail, segments, contentOf);
    KindStepsAppend(main, [kinds[j]], kinds[j + 1..], segments, contentOf);
    KindStepsSingle(main, kinds[i], segments, contentOf);
    KindStepsSingle(main, kinds[j], segments, contentOf);
  }

  lemma KindStepsSingle(main: Path, k: Kind, segments: seq<string>, contentOf: Kind -> string)
    ensures KindSteps(main, [k], segments, contentOf) == ModuleSteps(main + [k.Name()], segments, contentOf(k))
  {
    assert KindSteps(main, [k], segments, contentOf) == ModuleSteps(main + [k.Name()], segments, contentOf(k)) + [];
  }

  /** Every directory of sub-module `k`'s block is in the plan. */
  lemma {:induction false} KindStepsContain(main: Path, kinds: seq<Kind>, segments: seq<string>,
                                           contentOf: Kind -> string, k: Kind, step: Step)
    requires k in kinds
    requires step in ModuleSteps(main + [k.Name()], segments, contentOf(k))
    ensures step in KindSteps(main, kinds, segments, contentOf)
    decreases |kinds|
  {
    if kinds[0] != k {
      KindStepsContain(main, kinds[1..], segments, contentOf, k, step);
    }
  }

  /** The directories a sub-module's block makes: its own, and the source
      root followed by each prefix of the segments. */
  lemma ModuleDirs(dir: Path, segments: seq<string>, content: string, j: nat)
    requires j <= |segments|
    ensures MakeDir(dir) in ModuleSteps(dir, segments, content)
    ensures MakeDir(dir + SourceRoot + segments[..j]) in ModuleSteps(dir, segments, content)
  {
    var steps := ModuleSteps(dir, segments, content);
    if j == 0 {
      assert dir + SourceRoot + segments[..0] == dir + SourceRoot;
      assert steps[3] == MakeDir(dir + SourceRoot);
    } else {
      assert steps[4 + j - 1] == NestedDirs(dir + SourceRoot, segments)[j - 1];
    }
  }

  /** A sub-module block writes only its own build file. */
  lemma ModuleWritePaths(dir: Path, segments: seq<string>, content: string)
    ensures WritePaths(ModuleSteps(dir, segments, content)) == {dir + [BuildFileName]}
  {
    var dirs := [MakeDir(dir), MakeDir(dir + ["src"]), MakeDir(dir + ["src", "commonMain"]), MakeDir(dir + SourceRoot)]
      + NestedDirs(dir + SourceRoot, segments);
    var file := [MakeFile(dir + [BuildFileName]), Write(dir + [BuildFileName], content)];
    assert ModuleSteps(dir, segments, content) == dirs + file;
    WritePathsAppend(dirs, file);
    assert WritePaths(dirs) == {} by {
      forall i | 0 <= i < |dirs| ensures dirs[i].MakeDir? {
        if i >= 4 {
          assert dirs[i] == NestedDirs(dir + SourceRoot, segments)[i - 4];
        }
      }
    }
    assert WritePaths(file) == {dir + [BuildFileName]} by {
      assert file[1].Write?;
    }
  }

  /** The sub-modules of a feature write exactly their build files. */
  lemma {:induction false} KindWritePaths(main: Path, kinds: seq<Kind>, segments: seq<string>,
                                         contentOf: Kind -> string)
    ensures WritePaths(KindSteps(main, kinds, segments, contentOf))
      == set k | k in kinds :: BuildFilePath(main, k)
    decreases |kinds|
  {
    if |kinds| == 0 {
      assert WritePaths([]) == {};
    } else {
      var head := ModuleSteps(main + [kinds[0].Name()], segments, contentOf(kinds[0]));
      var rest := KindSteps(main, kinds[1..], segments, contentOf);
      WritePathsAppend(head, rest);
      ModuleWritePaths(main + [kinds[0].Name()], segments, contentOf(kinds[0]));
      KindWritePaths(main, kinds[1..], segments, contentOf);
      assert main + [kinds[0].Name()] + [BuildFileName] == BuildFilePath(main, kinds[0]);
      assert forall k :: k in kinds <==> k == kinds[0] || k in kinds[1..];
    }
  }

  /** Build files of different sub-modules are different files. */
  lemma BuildFilesDiffer(main: Path, a: Kind, b: Kind)
    ensures BuildFilePath(main, a) == BuildFilePath(main, b) <==> a == b
  {
    if BuildFilePath(main, a) == BuildFilePath(main, b) {
      assert BuildFilePath(main, a)[|main|] == a.Name();
      assert BuildFilePath(main, b)[|main|] == b.Name();
      NamesDistinct(a, b);
    }
  }

  // ---------------------------------------------------------------------
  // Effect of a completed plan

  /** After the sub-modules are laid down, each build file holds the content
      meant for it. */
  lemma {:induction false} KindStepsContent(fs: Fs, refused: set<Path>, main: Path, kinds: seq<Kind>,
                                           segments: seq<string>, contentOf: Kind -> string, k: Kind)
    requires Run(fs, refused, KindSteps(main, kinds, segments, contentOf)).Done?
    requires Distinct(kinds) && k in kinds
    ensures BuildFilePath(main, k) in Run(fs, refused, KindSteps(main, kinds, segments, contentOf)).fs.files
    ensures Run(fs, refused, KindSteps(main, kinds, segments, contentOf)).fs.files[BuildFilePath(main, k)]
      == contentOf(k)
    decreases |kinds|
  {
    var dir := main + [kinds[0].Name()];
    var head := ModuleSteps(dir, segments, contentOf(kinds[0]));
    var rest := KindSteps(main, kinds[1..], segments, contentOf);
    RunAppend(fs, refused, head, rest);
    var g := Run(fs, refused, head).fs;
    if kinds[0] == k {
      var front := head[..|head| - 1];
      assert dir + [BuildFileName] == BuildFilePath(main, k);
      assert head[|head| - 1] == Write(BuildFilePath(main, k), contentOf(k));
      assert head == front + [Write(BuildFilePath(main, k), contentOf(k))];
      RunEndsWithWrite(fs, refused, front, BuildFilePath(main, k), contentOf(k));
      KindWritePaths(main, kinds[1..], segments, contentOf);
      forall k' | k' in kinds[1..] ensures BuildFilePath(main, k') != BuildFilePath(main, k) {
        var i :| 0 <= i < |kinds[1..]| && kinds[1..][i] == k';
        assert kinds[i + 1] == k';
        BuildFilesDiffer(main, k', k);
      }
      RunKeepsFile(g, refused, rest, BuildFilePath(main, k));
    } else {
      assert Distinct(kinds[1..]) by {
        forall i, j | 0 <= i < j < |kinds[1..]| ensures kinds[1..][i] != kinds[1..][j] {
          assert kinds[1..][i] == kinds[i + 1] && kinds[1..][j] == kinds[j + 1];
        }
      }
      KindStepsContent(g, refused, main, kinds[1..], segments, contentOf, k);
    }
  }

  /** Sub-module directory `dir` with the source root, each nested source
      directory for `segments`, and the build file holding `content`. */
  predicate ModuleLaidOut(f: Fs, dir: Path, segments: seq<string>, content: string) {
    && dir in f.dirs
    && (forall j | 0 <= j <= |segments| :: dir + SourceRoot + segments[..j] in f.dirs)
    && dir + [BuildFileName] in f.files
    && f.files[dir + [BuildFileName]] == content
  }

  /** A completed plan leaves, for every sub-module `k` it was asked for,
      the directory `parent/directoryName/k`, the source root and each
      nested source directory in it, and the build file with its content. */
  lemma PlanLayout(fs: Fs, refused: set<Path>, parent: Path, directoryName: string, kinds: seq<Kind>,
                   segments: seq<string>, contentOf: Kind -> string, k: Kind)
    requires Run(fs, refused, Plan(parent, directoryName, kinds, segments, contentOf)).Done?
    requires Distinct(kinds) && k in kinds
    ensures var f := Run(fs, refused, Plan(parent, directoryName, kinds, segments, contentOf)).fs;
      && parent + [directoryName] in f.dirs
      && ModuleLaidOut(f, parent + [directoryName, k.Name()], segments, contentOf(k))
  {
    var main := parent + [directoryName];
    var dir := main + [k.Name()];
    var plan := Plan(parent, directoryName, kinds, segments, contentOf);
    var f := Run(fs, refused, plan).fs;
    var ks := KindSteps(main, kinds, segments, contentOf);
    assert parent + [directoryName, k.Name()] == dir;
    RunMakesDir(fs, refused, plan, main);
    ModuleDirs(dir, segments, contentOf(k), 0);
    KindStepsContain(main, kinds, segments, contentOf, k, MakeDir(dir));
    RunMakesDir(fs, refused, plan, dir);
    forall j | 0 <= j <= |segments| ensures dir + SourceRoot + segments[..j] in f.dirs {
      ModuleDirs(dir, segments, contentOf(k), j);
      KindStepsContain(main, kinds, segments, contentOf, k, MakeDir(dir + SourceRoot + segments[..j]));
      RunMakesDir(fs, refused, plan, dir + SourceRoot + segments[..j]);
    }
    RunAppend(fs, refused, [MakeDir(main)], ks);
    KindStepsContent(Run(fs, refused, [MakeDir(main)]).fs, refused, main, kinds, segments, contentOf, k);
    assert dir + [BuildFileName] == BuildFilePath(main, k);
  }

  /** The plan writes the build files of its sub-modules and no other
      file. */
  lemma PlanWritePaths(parent: Path, directoryName: string, kinds: seq<Kind>, segments: seq<string>,
                       contentOf: Kind -> string)
    ensures WritePaths(Plan(parent, directoryName, kinds, segments, contentOf))
      == set k | k in kinds :: BuildFilePath(parent + [directoryName], k)
  {
    var main := parent + [directoryName];
    WritePathsAppend([MakeDir(main)], KindSteps(main, kinds, segments, contentOf));
    assert WritePaths([MakeDir(main)]) == {};
    KindWritePaths(main, kinds, segments, contentOf);
  }

  /** In a tree, no file below a directory that does not exist yet. */
  lemma NoOldBuildFile(fs: Fs, main: Path, k: Kind)
    requires WellFormed(fs) && !Exists(fs, main)
    ensures BuildFilePath(main, k) !in fs.files
  {
    var p := BuildFilePath(main, k);
    var q := main + [k.Name()];
    assert p[..|p| - 1] == q;
    assert q[..|q| - 1] == main;
  }

  /** In a tree, a plan changes no file that existed before it: either the
      feature directory exists and the plan stops at once, or nothing below
      it existed. */
  lemma PlanKeepsOldFiles(fs: Fs, refused: set<Path>, parent: Path, directoryName: string, kinds: seq<Kind>,
                          segments: seq<string>, contentOf: Kind -> string, p: Path)
    requires WellFormed(fs) && p in fs.files
    ensures p in Run(fs, refused, Plan(parent, directoryName, kinds, segments, contentOf)).fs.files
    ensures Run(fs, refused, Plan(parent, directoryName, kinds, segments, contentOf)).fs.files[p] == fs.files[p]
  {
    var main := parent + [directoryName];
    var plan := Plan(parent, directoryName, kinds, segments, contentOf);
    if Exists(fs, main) {
      PlanOnExisting(fs, refused, parent, directoryName, kinds, segments, contentOf);
    } else {
      PlanWritePaths(parent, directoryName, kinds, segments, contentOf);
      forall k | k in kinds ensures BuildFilePath(main, k) != p {
        NoOldBuildFile(fs, main, k);
      }
      RunKeepsFile(fs, refused, plan, p);
    }
  }

  /** A plan whose feature directory already exists fails at once and
      changes nothing. */
  lemma PlanOnExisting(fs: Fs, refused: set<Path>, parent: Path, directoryName: string, kinds: seq<Kind>,
                       segments: seq<string>, contentOf: Kind -> string)
    requires Exists(fs, parent + [directoryName])
    ensures Run(fs, refused, Plan(parent, directoryName, kinds, segments, contentOf))
      == Stopped(fs, 0, AlreadyExists(parent + [directoryName]))
  {
  }
}
