/** The plain module dialog that feeds the `ui` package's creator: a package name
    and a directory name, both stored, and the kind check boxes; the
    namespace is the trimmed package name alone. */
module ModuleDialog {
  import opened Wrappers
  import opened Text
  import opened Kinds
  import opened Forms
  import UiCreator

  datatype Fields = Fields(packageName: string, directoryName: string, selection: Selection)

  /** `loadPersistedValues`: both names come from the store, the package
      name by default `com.example`, the directory name by default empty. */
  function Load(store: Store): (f: Fields)
    ensures f.packageName == Lookup(store, PackageNameKey, DefaultPackageName)
    ensures f.directoryName == Lookup(store, DirectoryNameKey, "")
    ensures f.selection == DialogSelection
  {
    Fields(Lookup(store, PackageNameKey, DefaultPackageName), Lookup(store, DirectoryNameKey, ""), DialogSelection)
  }

  /** `savePersistedValues`: the two names as typed; nothing else is
      touched. */
  function Save(store: Store, f: Fields): (r: Store)
    ensures r.Keys == store.Keys + {PackageNameKey, DirectoryNameKey}
    ensures forall key | key in store && key != PackageNameKey && key != DirectoryNameKey :: r[key] == store[key]
  {
    store[PackageNameKey := f.packageName][DirectoryNameKey := f.directoryName]
  }

  /** Reopening after OK shows both names again; the check boxes start
      afresh. */
  lemma ReopenAfterSave(store: Store, f: Fields)
    ensures Load(Save(store, f)) == f.(selection := DialogSelection)
  {
    KeysDistinct(Public, Public);
  }

  /** `createModule`: nothing when a trimmed name is empty; otherwise the
      trimmed package name as namespace and the trimmed directory name. */
  function CreateModule(f: Fields): (r: Option<CreateRequest>)
    ensures r.None? <==> IsBlank(f.packageName) || IsBlank(f.directoryName)
    ensures r.Some? ==> r.value == CreateRequest(Trim(f.packageName), Trim(f.directoryName), f.selection)
  {
    var packageName := Trim(f.packageName);
    var directoryName := Trim(f.directoryName);
    if packageName == [] || directoryName == [] then None
    else Some(CreateRequest(packageName, directoryName, f.selection))
  }

  /** A form passes validation exactly when `createModule` goes ahead and at
      least one kind is ticked. */
  lemma ValidIffCreates(f: Fields)
    ensures Validate(f.directoryName, f.packageName, f.selection) == None
      <==> CreateModule(f).Some? && f.selection.Any()
  {
  }

  /** The creator appends the directory name below the namespace
      directories, so this dialog's sources land where the new-feature
      dialog's would with its derived namespace `<package>.<directory>`,
      as long as the directory name holds no `.`. */
  lemma SameSourceDirectories(f: Fields)
    requires CreateModule(f).Some?
    requires '.' !in f.directoryName
    ensures UiCreator.SourceSegments(CreateModule(f).value) == Split(TrimmedNamespace(f.packageName, f.directoryName), '.')
  {
    var p, d := Trim(f.packageName), Trim(f.directoryName);
    TrimKeepsChars(f.directoryName, '.');
    SplitNoSeparator(d, '.');
  }
}
