/** The form state the new-feature dialogs and the view model keep while
    the user types: the text fields, the kind check boxes and the three
    template editors, with the namespace re-derived whenever the package or
    the directory name changes. */
module Editing {
  import opened Wrappers
  import opened Kinds
  import opened Forms
  import opened Templates

  datatype Form = Form(directoryName: string, packageName: string, namespace: string,
                       selection: Selection, templates: TemplateTexts)

  /** One edit: a field's new text (for the package and directory fields the
      key release that follows it), a check box, or a template editor. */
  datatype Event =
    | PackageTyped(text: string)
    | DirectoryTyped(text: string)
    | NamespaceTyped(text: string)
    | Toggled(kind: Kind, on: bool)
    | TemplateEdited(kind: Kind, text: string)

  function Toggle(sel: Selection, k: Kind, on: bool): (r: Selection)
    ensures r.Has(k) == on
    ensures forall j | j != k :: r.Has(j) == sel.Has(j)
  {
    match k
    case Public => sel.(public := on)
    case Impl => sel.(impl := on)
    case Testing => sel.(testing := on)
  }

  function Edit(texts: TemplateTexts, k: Kind, text: string): (r: TemplateTexts)
    ensures r.For(k) == text
    ensures forall j | j != k :: r.For(j) == texts.For(j)
  {
    match k
    case Public => texts.(public := text)
    case Impl => texts.(impl := text)
    case Testing => texts.(testing := text)
  }

  /** The namespace field shows what `derive` makes of the package and the
      directory name. */
  predicate Derived(f: Form, derive: (string, string) -> string) {
    f.namespace == derive(f.packageName, f.directoryName)
  }

  /** One edit, with `derive` the dialog's namespace rule. */
  function Step(f: Form, e: Event, derive: (string, string) -> string): (r: Form)
    ensures e.PackageTyped? || e.DirectoryTyped? ==> Derived(r, derive)
    ensures e.PackageTyped? ==> r.packageName == e.text && r.directoryName == f.directoryName
    ensures e.DirectoryTyped? ==> r.directoryName == e.text && r.packageName == f.packageName
    ensures e.NamespaceTyped? ==> r == f.(namespace := e.text)
    ensures !e.Toggled? ==> r.selection == f.selection
    ensures !e.TemplateEdited? ==> r.templates == f.templates
    ensures e.Toggled? || e.TemplateEdited? ==>
      r.packageName == f.packageName && r.directoryName == f.directoryName && r.namespace == f.namespace
    ensures e.Toggled? ==> r.selection == Toggle(f.selection, e.kind, e.on)
    ensures e.TemplateEdited? ==> r.templates == Edit(f.templates, e.kind, e.text)
  {
    match e
    case PackageTyped(t) => f.(packageName := t, namespace := derive(t, f.directoryName))
    case DirectoryTyped(t) => f.(directoryName := t, namespace := derive(f.packageName, t))
    case NamespaceTyped(t) => f.(namespace := t)
    case Toggled(k, on) => f.(selection := Toggle(f.selection, k, on))
    case TemplateEdited(k, t) => f.(templates := Edit(f.templates, k, t))
  }

  /** A session of edits, in order. The check boxes change only through
      `Toggled` events and the template editors only through
      `TemplateEdited` ones. */
  function Steps(f: Form, events: seq<Event>, derive: (string, string) -> string): (r: Form)
    ensures (forall i | 0 <= i < |events| :: !events[i].Toggled?) ==> r.selection == f.selection
    ensures (forall i | 0 <= i < |events| :: !events[i].TemplateEdited?) ==> r.templates == f.templates
    decreases |events|
  {
    if |events| == 0 then f
    else
      assert forall i | 0 <= i < |events[1..]| :: events[1..][i] == events[i + 1];
      Steps(Step(f, events[0], derive), events[1..], derive)
  }

  lemma {:induction false} StepsAppend(f: Form, a: seq<Event>, b: seq<Event>, derive: (string, string) -> string)
    ensures Steps(f, a + b, derive) == Steps(Steps(f, a, derive), b, derive)
    decreases |a|
  {
    if |a| == 0 {
      assert a + b == b;
    } else {
      assert (a + b)[0] == a[0];
      assert (a + b)[1..] == a[1..] + b;
      StepsAppend(Step(f, a[0], derive), a[1..], b, derive);
    }
  }

  /** As long as nobody types into the namespace field, it keeps showing the
      derived namespace. */
  lemma {:induction false} DerivedKept(f: Form, events: seq<Event>, derive: (string, string) -> string)
    requires Derived(f, derive)
    requires forall i | 0 <= i < |events| :: !events[i].NamespaceTyped?
    ensures Derived(Steps(f, events, derive), derive)
    decreases |events|
  {
    if |events| > 0 {
      assert !events[0].NamespaceTyped?;
      assert forall i | 0 <= i < |events[1..]| :: events[1..][i] == events[i + 1];
      DerivedKept(Step(f, events[0], derive), events[1..], derive);
    }
  }

  /** A namespace typed by hand is overwritten by the next key release in
      the package or directory field: after such an edit with no later
      namespace edit, the field shows the derived namespace again. */
  lemma LatestTypingWins(f: Form, events: seq<Event>, derive: (string, string) -> string, i: int)
    requires 0 <= i < |events| && (events[i].PackageTyped? || events[i].DirectoryTyped?)
    requires forall j | i < j < |events| :: !events[j].NamespaceTyped?
    ensures Derived(Steps(f, events, derive), derive)
  {
    var before, after := events[..i], events[i + 1..];
    assert events == before + [events[i]] + after;
    StepsAppend(f, before + [events[i]], after, derive);
    StepsAppend(f, before, [events[i]], derive);
    var g := Steps(f, before + [events[i]], derive);
    assert g == Step(Steps(f, before, derive), events[i], derive);
    assert forall j | 0 <= j < |after| :: after[j] == events[i + 1 + j];
    DerivedKept(g, after, derive);
  }

  /** Check boxes and template editors leave the text fields alone, a hand-
      typed namespace included. */
  lemma {:induction false} ManualNamespaceKept(f: Form, events: seq<Event>, derive: (string, string) -> string)
    requires forall i | 0 <= i < |events| :: events[i].Toggled? || events[i].TemplateEdited?
    ensures var g := Steps(f, events, derive);
      g.namespace == f.namespace && g.packageName == f.packageName && g.directoryName == f.directoryName
    decreases |events|
  {
    if |events| > 0 {
      assert forall i | 0 <= i < |events[1..]| :: events[1..][i] == events[i + 1];
      ManualNamespaceKept(Step(f, events[0], derive), events[1..], derive);
    }
  }

  // Persisted templates.

  /** The three templates as stored, each falling back to its default. */
  function LoadTemplates(store: Store): (r: TemplateTexts)
    ensures forall k :: r.For(k) == Lookup(store, TemplateKey(k), DefaultTemplate(k))
  {
    TemplateTexts(
      Lookup(store, TemplateKey(Public), DefaultTemplate(Public)),
      Lookup(store, TemplateKey(Impl), DefaultTemplate(Impl)),
      Lookup(store, TemplateKey(Testing), DefaultTemplate(Testing)))
  }

  /** What `SaveFeatureValues` stored is what the next dialog loads. */
  lemma TemplatesReadBack(store: Store, packageName: string, templates: TemplateTexts)
    ensures Lookup(SaveFeatureValues(store, packageName, templates), PackageNameKey, DefaultPackageName) == packageName
    ensures LoadTemplates(SaveFeatureValues(store, packageName, templates)) == templates
  {
    var saved := SaveFeatureValues(store, packageName, templates);
    SaveFeatureValuesReadBack(store, packageName, templates, Public);
    SaveFeatureValuesReadBack(store, packageName, templates, Impl);
    SaveFeatureValuesReadBack(store, packageName, templates, Testing);
    var loaded := LoadTemplates(saved);
    assert loaded.For(Public) == templates.public;
    assert loaded.For(Impl) == templates.impl;
    assert loaded.For(Testing) == templates.testing;
  }
}
