/** The rules the creation dialogs share: how a namespace is derived, the
    order in which the form is validated, how the Gradle path of the parent
    directory is spelled, and the keys under which values persist. */
module Forms {
  import opened Wrappers
  import opened Text
  import opened Kinds

  /** Which sub-modules the form asks for. */
  datatype Selection = Selection(public: bool, impl: bool, testing: bool) {

    predicate Has(k: Kind) {
      match k
      case Public => public
      case Impl => impl
      case Testing => testing
    }

    predicate Any() {
      public || impl || testing
    }

    /** The selected kinds in the order public, impl, testing. */
    function Kinds(): (r: seq<Kind>)
      ensures forall k :: k in r <==> Has(k)
      ensures forall i, j | 0 <= i < j < |r| :: KindIndex(r[i]) < KindIndex(r[j])
      ensures |r| == 0 <==> !Any()
    {
      (if public then [Public] else []) + (if impl then [Impl] else [])
        + (if testing then [Testing] else [])
    }
  }

  /** The dialogs open with only the public sub-module ticked. */
  const DialogSelection: Selection := Selection(true, false, false)

  /** No kind is selected twice. */
  lemma KindsDistinct(sel: Selection)
    ensures forall i, j | 0 <= i < j < |sel.Kinds()| :: sel.Kinds()[i] != sel.Kinds()[j]
  {
    var ks := sel.Kinds();
    forall i, j | 0 <= i < j < |ks| ensures ks[i] != ks[j] {
      assert KindIndex(ks[i]) < KindIndex(ks[j]);
    }
  }

  /** The three template texts of a form, one per kind. */
  datatype TemplateTexts = TemplateTexts(public: string, impl: string, testing: string) {
    function For(k: Kind): string {
      match k
      case Public => public
      case Impl => impl
      case Testing => testing
    }
  }

  /** The templates handed to a creator: one per selected kind, none for the
      others (`null` in the source). */
  datatype Overrides = Overrides(public: Option<string>, impl: Option<string>, testing: Option<string>) {
    function For(k: Kind): Option<string> {
      match k
      case Public => public
      case Impl => impl
      case Testing => testing
    }
  }

  /** Builds the overrides kind by kind. */
  function OverridesOf(sel: Selection, texts: Kind -> string): (o: Overrides)
    ensures forall k :: o.For(k) == (if sel.Has(k) then Some(texts(k)) else None)
  {
    Overrides(
      if sel.public then Some(texts(Public)) else None,
      if sel.impl then Some(texts(Impl)) else None,
      if sel.testing then Some(texts(Testing)) else None)
  }

  /** What a dialog hands to a creator once the form is accepted. */
  datatype CreateRequest = CreateRequest(namespace: string, directoryName: string, selection: Selection)

  /** A request together with the build-file templates the new-feature
      creator takes. */
  datatype FeatureRequest = FeatureRequest(request: CreateRequest, templates: Overrides)

  // Namespace.

  /** The package name, followed by `.` and the directory name when both
      are non-empty. The namespace directories the creators make from it
      are the package's segments, followed by the directory name's when
      both are present. */
  function Namespace(packageName: string, directoryName: string): (r: string)
    ensures Split(r, '.')
      == Split(packageName, '.')
         + (if packageName != [] && directoryName != [] then Split(directoryName, '.') else [])
  {
    if packageName != [] && directoryName != [] then
      SplitAppend(packageName, '.', directoryName);
      packageName + "." + directoryName
    else packageName
  }

  /** The Swing dialog's and the view model's derivation: both fields are
      trimmed first. The result has no surrounding whitespace, and it is
      empty exactly when the package name is blank. */
  function TrimmedNamespace(packageName: string, directoryName: string): (r: string)
    ensures Trim(r) == r
    ensures r == [] <==> IsBlank(packageName)
  {
    var p, d := Trim(packageName), Trim(directoryName);
    var n := Namespace(p, d);
    if p != [] && d != [] then JoinedEnds(p, d); TrimFixed(n); n
    else TrimFixed(n); n
  }

  lemma JoinedEnds(p: string, d: string)
    requires p != [] && d != []
    ensures var n := p + "." + d; n[0] == p[0] && n[|n| - 1] == d[|d| - 1]
  {
  }

  // Validation.

  datatype ValidationError = DirectoryRequired | PackageRequired | KindRequired {
    function Message(): string {
      match this
      case DirectoryRequired => "Directory name is required"
      case PackageRequired => "Package name is required"
      case KindRequired => "At least one module type must be selected"
    }
  }

  /** `doValidate`: the first failing check, in the order directory name,
      package name, module kinds. */
  function Validate(directoryName: string, packageName: string, sel: Selection): (r: Option<ValidationError>)
    ensures r == None <==> !IsBlank(directoryName) && !IsBlank(packageName) && sel.Any()
    ensures r == Some(DirectoryRequired) <==> IsBlank(directoryName)
    ensures r == Some(PackageRequired) <==> !IsBlank(directoryName) && IsBlank(packageName)
    ensures r == Some(KindRequired) <==> !IsBlank(directoryName) && !IsBlank(packageName) && !sel.Any()
  {
    if IsBlank(directoryName) then Some(DirectoryRequired)
    else if IsBlank(packageName) then Some(PackageRequired)
    else if !sel.Any() then Some(KindRequired)
    else None
  }

  /** A form that passes validation gets past the trimmed emptiness check
      at the start of `createModule`, and asks for at least one kind. */
  lemma ValidFormProceeds(directoryName: string, packageName: string, sel: Selection)
    requires Validate(directoryName, packageName, sel) == None
    ensures Trim(directoryName) != [] && Trim(packageName) != []
    ensures directoryName != [] && packageName != []
    ensures |sel.Kinds()| > 0
  {
  }

  // Project directory.

  /** The Gradle path of the directory the feature is created in: the part of
      its path below the project base with `/` turned into `:`, prefixed by
      `:` when it lacks one; `:` + the directory's name when the path is not
      under the base or there is no base. */
  function ProjectDirectory(basePath: Option<string>, parentPath: string, parentName: string): (r: string)
    ensures |r| > 0 && r[0] == ':'
  {
    if basePath.Some? && StartsWith(parentPath, basePath.value) then
      var relative := ReplaceAll(parentPath[|basePath.value|..], "/", ":");
      if StartsWith(relative, ":") then relative else ":" + relative
    else ":" + parentName
  }

  /** The project base itself is the Gradle root. */
  lemma ProjectDirectoryOfBase(basePath: string, parentName: string)
    ensures ProjectDirectory(Some(basePath), basePath, parentName) == ":"
  {
    assert StartsWith(basePath, basePath);
    assert basePath[|basePath|..] == "";
  }

  /** A directory `base/s1/…/sn` is the Gradle path `:s1:…:sn`. */
  lemma ProjectDirectoryBelow(basePath: string, segments: seq<string>, parentName: string)
    requires |segments| > 0
    requires forall i | 0 <= i < |segments| :: '/' !in segments[i]
    ensures ProjectDirectory(Some(basePath), basePath + "/" + Join(segments, "/"), parentName)
      == ":" + Join(segments, ":")
  {
    var below := Join(segments, "/");
    var parentPath := basePath + "/" + below;
    assert StartsWith(parentPath, basePath);
    assert parentPath[|basePath|..] == "/" + below;
    ReplaceAtStart("/", below, ":");
    ReplaceCharIsSplitJoin(below, '/', ":");
    SplitJoin(segments, '/');
  }

  /** Outside the base, or without one, only the directory's own name is
      used. */
  lemma ProjectDirectoryOutside(basePath: Option<string>, parentPath: string, parentName: string)
    requires basePath.None? || !StartsWith(parentPath, basePath.value)
    ensures ProjectDirectory(basePath, parentPath, parentName) == ":" + parentName
  {
  }

  /** Below the base, no `/` survives. */
  lemma ProjectDirectoryNoSlash(basePath: string, parentPath: string, parentName: string)
    requires StartsWith(parentPath, basePath)
    ensures '/' !in ProjectDirectory(Some(basePath), parentPath, parentName)
  {
    var rest := parentPath[|basePath|..];
    ReplaceCharIsSplitJoin(rest, '/', ":");
    CharNotInJoin(Split(rest, '/'), ":", '/');
  }

  /** The base is matched as a text prefix, not as a directory: a sibling
      whose name extends the base's last segment counts as lying below it. */
  lemma ProjectDirectorySibling()
    ensures ProjectDirectory(Some("/work/app"), "/work/app2/lib", "lib") == ":2:lib"
  {
    var rest := "/work/app2/lib"[|"/work/app"|..];
    assert rest == "2/lib";
    assert StartsWith("/work/app2/lib", "/work/app");
    ReplaceCharIsSplitJoin(rest, '/', ":");
    SplitJoin(["2", "lib"], '/');
    assert Join(["2", "lib"], "/") == "2/lib";
    assert Join(["2", "lib"], ":") == "2:lib";
  }

  // Persisted values.

  /** The IDE's application-wide key-value store. */
  type Store = map<string, string>

  const PackageNameKey: string := "plusdevkit.packageName"
  const DirectoryNameKey: string := "plusdevkit.directoryName"
  const DefaultPackageName: string := "com.example"

  function TemplateKey(k: Kind): string {
    match k
    case Public => "plusdevkit.publicBuildGradle"
    case Impl => "plusdevkit.implBuildGradle"
    case Testing => "plusdevkit.testingBuildGradle"
  }

  /** Every value has its own key. */
  lemma KeysDistinct(a: Kind, b: Kind)
    ensures TemplateKey(a) != PackageNameKey && TemplateKey(a) != DirectoryNameKey
    ensures PackageNameKey != DirectoryNameKey
    ensures TemplateKey(a) == TemplateKey(b) <==> a == b
  {
    assert |PackageNameKey| == 22 && |DirectoryNameKey| == 24;
    assert |TemplateKey(a)| == (match a case Public => 28 case Impl => 26 case Testing => 29);
    assert |TemplateKey(b)| == (match b case Public => 28 case Impl => 26 case Testing => 29);
  }

  /** Stores the package name and the three templates; nothing else is
      touched. */
  function SaveFeatureValues(store: Store, packageName: string, templates: TemplateTexts): (r: Store)
    ensures r.Keys == store.Keys + {PackageNameKey, TemplateKey(Public), TemplateKey(Impl), TemplateKey(Testing)}
    ensures forall key | key in store && key != PackageNameKey && key !in TemplateKeys() :: r[key] == store[key]
  {
    store[PackageNameKey := packageName]
      [TemplateKey(Public) := templates.public]
      [TemplateKey(Impl) := templates.impl]
      [TemplateKey(Testing) := templates.testing]
  }

  function TemplateKeys(): set<string> {
    {TemplateKey(Public), TemplateKey(Impl), TemplateKey(Testing)}
  }

  /** Reading back what `SaveFeatureValues` stored. */
  lemma SaveFeatureValuesReadBack(store: Store, packageName: string, templates: TemplateTexts, k: Kind)
    ensures Lookup(SaveFeatureValues(store, packageName, templates), PackageNameKey, DefaultPackageName) == packageName
    ensures Lookup(SaveFeatureValues(store, packageName, templates), TemplateKey(k), "") == templates.For(k)
  {
    KeysDistinct(k, Public);
    KeysDistinct(k, Impl);
    KeysDistinct(k, Testing);
  }
}
