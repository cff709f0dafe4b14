/** The fixed lines of the multiplatform build scripts, kept apart from the
    string library so that facts about their characters stay cheap. */
module ScriptLines {
  import opened Kinds

  /** A character that is neither a line break nor the `$` that starts a
      placeholder. */
  predicate Inert(c: char) {
    c != '\n' && c != '\r' && c != '$'
  }

  /** A fixed line of a build script: inert characters only, and one of the
      letters of `project(` missing, so it declares no project dependency. */
  predicate Fixed(s: string) {
    (forall i | 0 <= i < |s| :: Inert(s[i]))
      && ((forall i | 0 <= i < |s| :: s[i] != 'j') || (forall i | 0 <= i < |s| :: s[i] != 'p'))
  }

  type FixedLine = s: string | Fixed(s)

  const Indent4: FixedLine := "    "
  const Indent8: FixedLine := "        "
  const Indent12: FixedLine := "            "
  const Indent16: FixedLine := "                "

  const PluginsBlock: seq<FixedLine> := [
    "plugins {", Indent4 + "kotlin(\"multiplatform\")", "}", ""]

  const TargetsBlock: seq<FixedLine> := [
    "kotlin {", Indent4 + "jvm()", Indent4 + "js(IR) {",
    Indent8 + "browser()", Indent8 + "nodejs()", Indent4 + "}"]

  /** Lines up to the end of the `js(IR)` target block. */
  const Head: seq<FixedLine> := PluginsBlock + TargetsBlock

  /** The line after the targets: four spaces in the dialog defaults (what
      `trimIndent` leaves of the indented blank line), a comment in the
      multiplatform file of the ui creator. */
  const BlankTargetsLine: FixedLine := Indent4
  const TargetsComment: FixedLine := Indent4 + "// Add other targets as needed"

  const SourceSetsOpen: seq<FixedLine> := [
    Indent4 + "sourceSets {", Indent8 + "val commonMain by getting {",
    Indent12 + "dependencies {"]

  const TestDependency: FixedLine := "implementation(kotlin(\"test\"))"

  const CommonTestOpen: seq<FixedLine> := [
    Indent12 + "}", Indent8 + "}", Indent8 + "val commonTest by getting {",
    Indent12 + "dependencies {"]

  const CommonTestClose: seq<FixedLine> := [
    Indent16 + TestDependency, Indent12 + "}", Indent8 + "}", Indent4 + "}", "}"]

  /** From the end of the commonMain dependencies to the end of the file. */
  const Tail: seq<FixedLine> := CommonTestOpen + CommonTestClose

  const PublicComment: FixedLine := "// Public module dependencies"
  const ImplComment: FixedLine := "// Implementation module dependencies"
  const TestingComment: FixedLine := "// Testing module dependencies"

  /** The comment that marks where a sub-module's own dependencies go. */
  function ModuleComment(k: Kind): FixedLine {
    match k
    case Public => PublicComment
    case Impl => ImplComment
    case Testing => TestingComment
  }

  const CommonComment: FixedLine := "// Common dependencies"

  const DirectoryPlaceholder: string := "$directoryName"
  const ProjectPlaceholder: string := "$projectDirectory"
  const NamespacePlaceholder: string := "$namespace"

  /** Each placeholder is a `$` followed by letters. */
  lemma PlaceholderShapes()
    ensures |DirectoryPlaceholder| == 14 && |ProjectPlaceholder| == 17 && |NamespacePlaceholder| == 10
    ensures DirectoryPlaceholder[0] == '$' && ProjectPlaceholder[0] == '$' && NamespacePlaceholder[0] == '$'
    ensures '$' !in DirectoryPlaceholder[1..] && '$' !in ProjectPlaceholder[1..]
  {
  }

  lemma PlaceholderSeparators()
    ensures ':' !in DirectoryPlaceholder && ':' !in ProjectPlaceholder && ':' !in NamespacePlaceholder
    ensures '\n' !in DirectoryPlaceholder && '\n' !in ProjectPlaceholder && '\n' !in NamespacePlaceholder
  {
  }

  /** The placeholders are told apart by their second character. */
  lemma PlaceholdersDiffer()
    ensures ProjectPlaceholder[..14] != DirectoryPlaceholder
    ensures ProjectPlaceholder[..10] != NamespacePlaceholder
    ensures DirectoryPlaceholder[..10] != NamespacePlaceholder
  {
    assert ProjectPlaceholder[..14][1] != DirectoryPlaceholder[1];
    assert ProjectPlaceholder[..10][1] != NamespacePlaceholder[1];
    assert DirectoryPlaceholder[..10][1] != NamespacePlaceholder[1];
  }
}
