/** The Compose variant of the new-feature dialog: the same stored values
    and defaults, a read-only namespace derived from the untrimmed package
    and directory names, and templates in which only the directory name and
    the project directory are filled in. */
module ComposeDialog {
  import opened Wrappers
  import opened Text
  import opened Kinds
  import opened Forms
  import opened ScriptLines
  import opened Templates
  import opened Editing
  import opened FileSystem
  import Scaffold
  import UiCreator

  /** `loadPersistedValues`: as in the Swing dialog, except that the
      namespace is the package name as stored, untrimmed. */
  function Load(store: Store): (f: Form)
    ensures f.packageName == Lookup(store, PackageNameKey, DefaultPackageName)
    ensures f.namespace == f.packageName
    ensures f.directoryName == [] && f.selection == DialogSelection
    ensures forall k :: f.templates.For(k) == Lookup(store, TemplateKey(k), DefaultTemplate(k))
  {
    var packageName := Lookup(store, PackageNameKey, DefaultPackageName);
    Form([], packageName, if packageName != [] then packageName else [], DialogSelection, LoadTemplates(store))
  }

  /** `savePersistedValues`: reopening brings back the package name and the
      templates as typed, untrimmed, with the namespace equal to the package
      name; no other stored value changes. */
  function Save(store: Store, f: Form): (r: Store)
    ensures Load(r) == Form([], f.packageName, f.packageName, DialogSelection, f.templates)
    ensures forall key | key in store && key != PackageNameKey && key !in TemplateKeys() :: key in r && r[key] == store[key]
  {
    TemplatesReadBack(store, f.packageName, f.templates);
    SaveFeatureValues(store, f.packageName, f.templates)
  }

  /** The namespace field cannot be typed into, so every session of edits
      keeps it at the derived value. */
  lemma NamespaceAlwaysDerived(store: Store, events: seq<Event>)
    requires forall i | 0 <= i < |events| :: !events[i].NamespaceTyped?
    ensures Derived(Steps(Load(store), events, Namespace), Namespace)
  {
    DerivedKept(Load(store), events, Namespace);
  }

  /** `createModule`: nothing when the package or directory name is empty
      (untrimmed); otherwise the namespace `<package>.<directory>`, and each
      selected template with the directory name and then the project
      directory replaced. */
  function CreateModule(f: Form, basePath: Option<string>, parentPath: string, parentName: string)
    : (r: Option<FeatureRequest>)
    ensures r.None? <==> f.packageName == [] || f.directoryName == []
    ensures r.Some? ==>
      r.value.request == CreateRequest(f.packageName + "." + f.directoryName, f.directoryName, f.selection)
    ensures r.Some? ==>
      forall k :: r.value.templates.For(k) ==
        if f.selection.Has(k) then
          Some(ResolvePaths(f.templates.For(k), f.directoryName, ProjectDirectory(basePath, parentPath, parentName)))
        else None
  {
    if f.packageName == [] || f.directoryName == [] then None
    else
      var projectDirectory := ProjectDirectory(basePath, parentPath, parentName);
      var templates := OverridesOf(f.selection, k => ResolvePaths(f.templates.For(k), f.directoryName, projectDirectory));
      Some(FeatureRequest(CreateRequest(f.packageName + "." + f.directoryName, f.directoryName, f.selection), templates))
  }

  /** A validated form always gets past the emptiness check. The converse
      fails: a whitespace-only name passes that check but not validation. */
  lemma ValidatedCreates(f: Form, basePath: Option<string>, parentPath: string, parentName: string)
    requires Validate(f.directoryName, f.packageName, f.selection) == None
    ensures CreateModule(f, basePath, parentPath, parentName).Some?
  {
  }

  lemma BlankNamePassesCreate(basePath: Option<string>, parentPath: string, parentName: string)
    ensures var f := Form(" ", "com.example", "com.example", DialogSelection, LoadTemplates(map[]));
      && CreateModule(f, basePath, parentPath, parentName).Some?
      && Validate(f.directoryName, f.packageName, f.selection) == Some(DirectoryRequired)
  {
    assert IsWhitespace(' ');
  }

  /** The namespace the creator is asked for is the one the dialog shows. */
  lemma ShownNamespaceUsed(f: Form, basePath: Option<string>, parentPath: string, parentName: string)
    requires Derived(f, Namespace)
    requires CreateModule(f, basePath, parentPath, parentName).Some?
    ensures CreateModule(f, basePath, parentPath, parentName).value.request.namespace == f.namespace
  {
  }

  /** An unedited default resolves to the skeleton with dependencies on the
      upstream sub-modules at `<projectDirectory>:<directory>`. */
  lemma DefaultResolved(f: Form, basePath: Option<string>, parentPath: string, parentName: string, k: Kind)
    requires CreateModule(f, basePath, parentPath, parentName).Some?
    requires f.selection.Has(k) && f.templates.For(k) == DefaultTemplate(k)
    requires '$' !in f.directoryName && '$' !in ProjectDirectory(basePath, parentPath, parentName)
    ensures CreateModule(f, basePath, parentPath, parentName).value.templates.For(k)
      == Some(BuildFile(BlankTargetsLine,
                        Dependencies(k, ProjectDirectory(basePath, parentPath, parentName) + ":" + f.directoryName)))
  {
    ResolveDefault(k, f.directoryName, ProjectDirectory(basePath, parentPath, parentName), f.namespace);
  }

  /** The namespace placeholder is never filled in: a template that
      mentions neither path placeholder reaches the creator as written,
      `$namespace` included. */
  lemma NamespacePlaceholderKept(f: Form, basePath: Option<string>, parentPath: string, parentName: string, k: Kind)
    requires CreateModule(f, basePath, parentPath, parentName).Some?
    requires f.selection.Has(k)
    requires !Occurs(DirectoryPlaceholder, f.templates.For(k)) && !Occurs(ProjectPlaceholder, f.templates.For(k))
    ensures CreateModule(f, basePath, parentPath, parentName).value.templates.For(k) == Some(f.templates.For(k))
  {
  }

  /** The dialog's creator call names the `ui` package's creator but passes
      it template arguments that creator does not declare, so as written it
      does not compile. Read as that creator with the templates dropped,
      whatever the editors hold, every sub-module gets the fixed
      multiplatform file. */
  lemma TemplatesIgnored(fs: Fs, refused: set<Path>, parent: Path, f: Form, basePath: Option<string>,
                         parentPath: string, parentName: string, k: Kind)
    requires CreateModule(f, basePath, parentPath, parentName).Some?
    requires var req := CreateModule(f, basePath, parentPath, parentName).value.request;
      UiCreator.CreateModules(fs, refused, parent, req).notices[0].ModulesCreated?
    requires f.selection.Has(k)
    ensures var req := CreateModule(f, basePath, parentPath, parentName).value.request;
      var r := UiCreator.CreateModules(fs, refused, parent, req);
      var file := parent + [f.directoryName, k.Name(), Scaffold.BuildFileName];
      file in r.fs.files && r.fs.files[file] == MultiplatformBuildFile
  {
    var req := CreateModule(f, basePath, parentPath, parentName).value.request;
    UiCreator.UiLayout(fs, refused, parent, req, k);
    assert parent + [f.directoryName, k.Name()] + [Scaffold.BuildFileName]
      == parent + [f.directoryName, k.Name(), Scaffold.BuildFileName];
  }

  /** Under the same reading, that creator nests the sources below the
      namespace directories and one more named after the feature, so with
      the namespace `<package>.<directory>` the directory name appears
      twice. */
  lemma DirectoryNestedTwice(f: Form, basePath: Option<string>, parentPath: string, parentName: string)
    requires CreateModule(f, basePath, parentPath, parentName).Some?
    requires '.' !in f.directoryName
    ensures UiCreator.SourceSegments(CreateModule(f, basePath, parentPath, parentName).value.request)
      == Split(f.packageName, '.') + [f.directoryName, f.directoryName]
  {
    SplitAppend(f.packageName, '.', f.directoryName);
    SplitNoSeparator(f.directoryName, '.');
    assert f.packageName + "." + f.directoryName == f.packageName + ['.'] + f.directoryName;
  }
}
