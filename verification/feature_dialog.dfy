/** The Swing new-feature dialog: it loads the package name and the three
    templates from the store, derives the namespace from the trimmed package
    and directory names as the user types, validates, stores its values on
    OK, and hands the new-feature creator a request with every selected
    template's placeholders filled in. */
module FeatureDialog {
  import opened Wrappers
  import opened Text
  import opened Kinds
  import opened Forms
  import opened ScriptLines
  import opened Templates
  import opened Editing
  import opened FileSystem
  import opened FeatureCreator
  import Scaffold

  /** `loadPersistedValues`: the stored package name (by default
      `com.example`) and templates (by default the dialog's defaults), an
      empty directory name, and the trimmed package name as namespace. */
  function Load(store: Store): (f: Form)
    ensures f.packageName == Lookup(store, PackageNameKey, DefaultPackageName)
    ensures f.namespace == Trim(f.packageName)
    ensures f.directoryName == [] && f.selection == DialogSelection
    ensures forall k :: f.templates.For(k) == Lookup(store, TemplateKey(k), DefaultTemplate(k))
  {
    var packageName := Lookup(store, PackageNameKey, DefaultPackageName);
    var trimmed := Trim(packageName);
    Form([], packageName, if trimmed != [] then trimmed else [], DialogSelection, LoadTemplates(store))
  }

  /** `savePersistedValues`: the package name as typed and the templates.
      Reopening the dialog brings both back; the directory name and the
      check boxes start afresh; no other stored value changes. */
  function Save(store: Store, f: Form): (r: Store)
    ensures Load(r) == Form([], f.packageName, Trim(f.packageName), DialogSelection, f.templates)
    ensures forall key | key in store && key != PackageNameKey && key !in TemplateKeys() :: key in r && r[key] == store[key]
  {
    TemplatesReadBack(store, f.packageName, f.templates);
    SaveFeatureValues(store, f.packageName, f.templates)
  }

  /** The dialog opens showing the namespace its typing rule would derive. */
  lemma LoadDerived(store: Store)
    ensures Derived(Load(store), TrimmedNamespace)
  {
    var f := Load(store);
    assert Trim(f.directoryName) == [];
  }

  /** `createModule`: nothing when the trimmed package or directory name is
      empty; otherwise the hand-editable namespace field as namespace, the
      trimmed directory name, and each selected template with directory
      name, project directory and namespace replaced in that order. */
  function CreateModule(f: Form, basePath: Option<string>, parentPath: string, parentName: string)
    : (r: Option<FeatureRequest>)
    ensures r.None? <==> IsBlank(f.packageName) || IsBlank(f.directoryName)
    ensures r.Some? ==> r.value.request == CreateRequest(f.namespace, Trim(f.directoryName), f.selection)
    ensures r.Some? ==>
      forall k :: r.value.templates.For(k) ==
        if f.selection.Has(k) then
          Some(Resolve(f.templates.For(k), Trim(f.directoryName), ProjectDirectory(basePath, parentPath, parentName),
                       f.namespace))
        else None
  {
    var packageName := Trim(f.packageName);
    var directoryName := Trim(f.directoryName);
    if packageName == [] || directoryName == [] then None
    else
      var projectDirectory := ProjectDirectory(basePath, parentPath, parentName);
      var templates := OverridesOf(f.selection,
        k => Resolve(f.templates.For(k), directoryName, projectDirectory, f.namespace));
      Some(FeatureRequest(CreateRequest(f.namespace, directoryName, f.selection), templates))
  }

  /** A form passes validation exactly when `createModule` goes ahead and at
      least one kind is ticked. */
  lemma ValidIffCreates(f: Form, basePath: Option<string>, parentPath: string, parentName: string)
    ensures Validate(f.directoryName, f.packageName, f.selection) == None
      <==> CreateModule(f, basePath, parentPath, parentName).Some? && f.selection.Any()
  {
  }

  /** While the namespace shows the derived value, the creator is asked for
      the namespace `<package>.<directory>` of the trimmed names. */
  lemma DerivedRequestNamespace(f: Form, basePath: Option<string>, parentPath: string, parentName: string)
    requires Derived(f, TrimmedNamespace)
    requires !IsBlank(f.packageName) && !IsBlank(f.directoryName)
    ensures CreateModule(f, basePath, parentPath, parentName).value.request.namespace
      == Trim(f.packageName) + "." + Trim(f.directoryName)
  {
  }

  /** The creator never falls back to its own build file for a kind the
      dialog asked for: it writes the dialog's resolved template. */
  lemma DialogTemplatesUsed(f: Form, basePath: Option<string>, parentPath: string, parentName: string, k: Kind)
    requires !IsBlank(f.packageName) && !IsBlank(f.directoryName)
    requires f.selection.Has(k)
    ensures var req := CreateModule(f, basePath, parentPath, parentName).value;
      ContentOf(req.templates, req.request.directoryName)(k)
        == Resolve(f.templates.For(k), Trim(f.directoryName), ProjectDirectory(basePath, parentPath, parentName),
                   f.namespace)
  {
    var req := CreateModule(f, basePath, parentPath, parentName).value;
    ContentOfChoice(req.templates, req.request.directoryName, k);
  }

  /** An unedited default resolves to the skeleton with dependencies on the
      upstream sub-modules at `<projectDirectory>:<directory>`. */
  lemma DefaultResolved(f: Form, basePath: Option<string>, parentPath: string, parentName: string, k: Kind)
    requires !IsBlank(f.packageName) && !IsBlank(f.directoryName)
    requires f.selection.Has(k) && f.templates.For(k) == DefaultTemplate(k)
    requires '$' !in f.directoryName && '$' !in ProjectDirectory(basePath, parentPath, parentName)
    ensures CreateModule(f, basePath, parentPath, parentName).value.templates.For(k)
      == Some(BuildFile(BlankTargetsLine,
                        Dependencies(k, ProjectDirectory(basePath, parentPath, parentName) + ":" + Trim(f.directoryName))))
  {
    TrimKeepsChars(f.directoryName, '$');
    ResolveDefault(k, Trim(f.directoryName), ProjectDirectory(basePath, parentPath, parentName), f.namespace);
  }

  /** A template without placeholders reaches the creator as written. */
  lemma PlainTemplateKept(f: Form, basePath: Option<string>, parentPath: string, parentName: string, k: Kind)
    requires !IsBlank(f.packageName) && !IsBlank(f.directoryName)
    requires f.selection.Has(k)
    requires !Occurs(DirectoryPlaceholder, f.templates.For(k)) && !Occurs(ProjectPlaceholder, f.templates.For(k))
    requires !Occurs(NamespacePlaceholder, f.templates.For(k))
    ensures CreateModule(f, basePath, parentPath, parentName).value.templates.For(k) == Some(f.templates.For(k))
  {
  }

  /** From the dialog to the disk: a completed run leaves each selected
      sub-module's build file holding the dialog's resolved template. */
  lemma DialogBuildFile(fs: Fs, host: Host, parent: Path, f: Form, basePath: Option<string>, parentPath: string,
                        parentName: string, k: Kind)
    requires !IsBlank(f.packageName) && !IsBlank(f.directoryName)
    requires Run(fs, host.refused, FeaturePlan(parent, CreateModule(f, basePath, parentPath, parentName).value)).Done?
    requires f.selection.Has(k)
    ensures var r := FeatureCreator.CreateModules(fs, host, parent, CreateModule(f, basePath, parentPath, parentName).value);
      var file := parent + [Trim(f.directoryName), k.Name(), Scaffold.BuildFileName];
      && file in r.fs.files
      && r.fs.files[file] == Resolve(f.templates.For(k), Trim(f.directoryName),
                                    ProjectDirectory(basePath, parentPath, parentName), f.namespace)
  {
    var req := CreateModule(f, basePath, parentPath, parentName).value;
    var content := Resolve(f.templates.For(k), Trim(f.directoryName),
                           ProjectDirectory(basePath, parentPath, parentName), f.namespace);
    DialogTemplatesUsed(f, basePath, parentPath, parentName, k);
    assert req.request.directoryName == Trim(f.directoryName);
    assert ContentOf(req.templates, req.request.directoryName)(k) == content;
    RequestLayout(fs, host, parent, req, k, content);
  }

  lemma RequestLayout(fs: Fs, host: Host, parent: Path, req: FeatureRequest, k: Kind, content: string)
    requires Run(fs, host.refused, FeaturePlan(parent, req)).Done?
    requires req.request.selection.Has(k)
    requires ContentOf(req.templates, req.request.directoryName)(k) == content
    ensures var r := FeatureCreator.CreateModules(fs, host, parent, req);
      var file := parent + [req.request.directoryName, k.Name(), Scaffold.BuildFileName];
      file in r.fs.files && r.fs.files[file] == content
  {
    CreateLayout(fs, host, parent, req, k);
    var dir := parent + [req.request.directoryName, k.Name()];
    assert dir + [Scaffold.BuildFileName] == parent + [req.request.directoryName, k.Name(), Scaffold.BuildFileName];
  }
}
