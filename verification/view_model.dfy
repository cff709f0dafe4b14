/** The view model behind the Compose version of the new-feature action: the
    same form state as the dialogs, loaded from the store with the impl
    sub-module ticked as well, with the namespace re-derived from the
    trimmed names on every package or directory update. */
module ViewModel {
  import opened Wrappers
  import opened Text
  import opened Kinds
  import opened Forms
  import opened Templates
  import opened Editing

  /** The public and the impl sub-module are ticked at first. */
  const InitialSelection: Selection := Selection(true, true, false)

  /** `loadPersistedValues`: the stored package name (by default
      `com.example`) is used, untrimmed, for the namespace too. */
  function Load(store: Store): (s: Form)
    ensures s.packageName == Lookup(store, PackageNameKey, DefaultPackageName)
    ensures s.namespace == s.packageName
    ensures s.directoryName == [] && s.selection == InitialSelection
    ensures forall k :: s.templates.For(k) == Lookup(store, TemplateKey(k), DefaultTemplate(k))
  {
    var packageName := Lookup(store, PackageNameKey, DefaultPackageName);
    Form([], packageName, packageName, InitialSelection, LoadTemplates(store))
  }

  /** The update handlers: each is one edit with the trimmed derivation. A
      package or directory update re-derives the namespace from the new
      names; a namespace update sets it as typed; the other handlers leave
      the three text fields alone. */
  function Update(s: Form, e: Event): (r: Form)
    ensures e.PackageTyped? || e.DirectoryTyped? ==> r.namespace == TrimmedNamespace(r.packageName, r.directoryName)
    ensures e.PackageTyped? ==> r.packageName == e.text && r.directoryName == s.directoryName
    ensures e.DirectoryTyped? ==> r.directoryName == e.text && r.packageName == s.packageName
    ensures e.NamespaceTyped? ==> r == s.(namespace := e.text)
    ensures e.Toggled? || e.TemplateEdited? ==>
      r.packageName == s.packageName && r.directoryName == s.directoryName && r.namespace == s.namespace
  {
    Step(s, e, TrimmedNamespace)
  }

  /** `savePersistedValues`: the next load brings back the package name and
      the templates, with the namespace equal to the package name; no other
      stored value changes. */
  function Save(store: Store, s: Form): (r: Store)
    ensures Load(r) == Form([], s.packageName, s.packageName, InitialSelection, s.templates)
    ensures forall key | key in store && key != PackageNameKey && key !in TemplateKeys() :: key in r && r[key] == store[key]
  {
    TemplatesReadBack(store, s.packageName, s.templates);
    SaveFeatureValues(store, s.packageName, s.templates)
  }

  /** The loaded namespace agrees with the derivation only when the stored
      package name carries no surrounding whitespace; the first package or
      directory update brings it in line. */
  lemma LoadDerivedIff(store: Store)
    ensures Derived(Load(store), TrimmedNamespace) <==> Trim(Load(store).packageName) == Load(store).packageName
  {
    var s := Load(store);
    assert Trim(s.directoryName) == [];
  }

  lemma FirstUpdateDerives(store: Store, e: Event)
    requires e.PackageTyped? || e.DirectoryTyped?
    ensures Derived(Update(Load(store), e), TrimmedNamespace)
  {
  }

  /** A namespace set through `onNameSpaceUpdated` lasts until the next
      package or directory update. */
  lemma NamespaceOverwritten(s: Form, n: string, events: seq<Event>, e: Event)
    requires forall i | 0 <= i < |events| :: events[i].Toggled? || events[i].TemplateEdited?
    requires e.PackageTyped? || e.DirectoryTyped?
    ensures Steps(Update(s, NamespaceTyped(n)), events, TrimmedNamespace).namespace == n
    ensures Derived(Steps(Update(s, NamespaceTyped(n)), events + [e], TrimmedNamespace), TrimmedNamespace)
  {
    var g := Update(s, NamespaceTyped(n));
    ManualNamespaceKept(g, events, TrimmedNamespace);
    LatestTypingWins(g, events + [e], TrimmedNamespace, |events|);
  }
}
