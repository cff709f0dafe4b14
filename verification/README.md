# Plus Dev Kit: feature-module scaffolding

A model of the core of the Plus Dev Kit IntelliJ plugin. The plugin creates
Kotlin Multiplatform feature modules. A feature directory holds up to three
sub-modules (`public`, `impl`, `testing`). Each sub-module gets
`src/commonMain/kotlin` with one directory per namespace segment and a
`build.gradle.kts`. The plugin also registers the sub-modules in the
project's `settings.gradle.kts`.

The model covers:

- **The settings merge** (`SettingsMerge`). This is `addModulesToSettings`:
  - collect the paths of the existing `include("…")` lines;
  - add the new ones;
  - drop every directive line;
  - append the sorted, duplicate-free directives after what remains.

  Kotlin's `lines()`, `trim()`, `Regex.find` and `sorted()` are modelled
  in `Text`, `SettingsMerge` and `StringOrder`.
- **The two creators** (`FeatureCreator`, `UiCreator`). Their directory
  and file steps come from `Scaffold` and run over a file tree
  (`FileSystem`). A failing step ends the run with nothing rolled back.
  The new-feature creator then updates the settings; the `ui` creator
  never does.
- **The build-file templates** (`ScriptLines`, `Templates`):
  - the default texts after `trimIndent`;
  - the creator's own fallbacks;
  - the multiplatform file;
  - the literal replace-all of `$directoryName`, `$projectDirectory` and
    `$namespace`.
- **The dialogs' form rules** (`Forms`, `Editing`, `FeatureDialog`,
  `ComposeDialog`, `ModuleDialog`):
  - namespace derivation, trimmed or untrimmed;
  - validation order;
  - the `projectDirectory` expression;
  - loading from and saving to the key-value store;
  - what each dialog passes to its creator.
- **The view model** (`ViewModel`). This is the record of form fields,
  its update events and the re-derived namespace.

Paths are sequences of segments, so `[a, b]` stands for `a/b`. The IDE's
property store is a `map<string, string>`. The notices a creator shows
are a list of `Notice` values, in the order they are queued.

## Model

| member | source | states |
|---|---|---|
| Kinds.Name | src/main/kotlin/com/plusmobileapps/devkit/newfeature/ModuleCreator.kt:23-25 | Each sub-module's directory name is non-empty and holds no `$`, quote, `:`, `/` or line break, so it survives every substitution and path rule. |
| Kinds.NamesDistinct | src/main/kotlin/com/plusmobileapps/devkit/newfeature/ModuleCreator.kt:23-25 | Two kinds have the same directory name exactly when they are the same kind. |
| Kinds.Upstream | src/main/kotlin/com/plusmobileapps/devkit/newfeature/BuildGradleDefaults.kt:33-93 | The kinds a sub-module depends on never include itself and always come earlier in the order public, impl, testing. |
| Kinds.KindIndex | src/main/kotlin/com/plusmobileapps/devkit/newfeature/ModuleCreator.kt:37-48 | Each kind has its position in the fixed order in which the creators handle them. |
| Text.Trim | src/main/kotlin/com/plusmobileapps/devkit/newfeature/ModuleCreator.kt:213 | `trim()` gives the empty string exactly for blank input; otherwise the result neither starts nor ends with whitespace and is no longer than the input. |
| Text.TrimUnique | src/main/kotlin/com/plusmobileapps/devkit/newfeature/ModuleCreator.kt:226 | Whatever blank text surrounds a core without whitespace at its ends, trimming yields exactly that core. |
| Text.TrimFixed | src/main/kotlin/com/plusmobileapps/devkit/newfeature/ModuleCreator.kt:213 | A text without whitespace at either end is its own trimmed form. |
| Text.TrimKeepsChars | src/main/kotlin/com/plusmobileapps/devkit/newfeature/NewModuleDialog.kt:202-203 | Trimming introduces no character that was not in the input. |
| Text.Split | src/main/kotlin/com/plusmobileapps/devkit/newfeature/ModuleCreator.kt:176 | `split('.')` yields at least one piece, no piece contains the separator, and joining the pieces with the separator gives back the input. |
| Text.SplitJoin | src/main/kotlin/com/plusmobileapps/devkit/newfeature/ModuleCreator.kt:176 | Splitting the join of separator-free pieces gives back exactly those pieces. |
| Text.SplitAppend | src/main/kotlin/com/plusmobileapps/devkit/newfeature/ModuleCreator.kt:176 | Splitting at a separator between two texts splits each text independently and concatenates the results. |
| Text.SplitNoSeparator | src/main/kotlin/com/plusmobileapps/devkit/newfeature/ModuleCreator.kt:176 | A text without the separator splits into itself alone. |
| Text.Lines | src/main/kotlin/com/plusmobileapps/devkit/newfeature/ModuleCreator.kt:212 | `lines()` yields at least one line, no line contains a line break, and for text without a carriage return it is the split at line feeds. |
| Text.LinesOfJoin | src/main/kotlin/com/plusmobileapps/devkit/newfeature/ModuleCreator.kt:224-229 | Joining break-free lines with line feeds and splitting into lines again gives back the same lines. |
| Text.LinesAppend | src/main/kotlin/com/plusmobileapps/devkit/newfeature/ModuleCreator.kt:238-239 | The lines of two carriage-return-free texts joined by a line feed are the lines of the first followed by the lines of the second. |
| Text.ReplaceAbsent | src/main/kotlin/com/plusmobileapps/devkit/newfeature/NewModuleDialog.kt:229-231 | `replace` leaves a text unchanged when the pattern does not occur in it. |
| Text.ReplaceFixedIffAbsent | src/main/kotlin/com/plusmobileapps/devkit/newfeature/NewModuleDialog.kt:229-231 | A text is unchanged by replacing a pattern with every possible value exactly when the pattern does not occur in it. |
| Text.ReplacePresentShrinks | src/main/kotlin/com/plusmobileapps/devkit/newfeature/NewModuleDialog.kt:229-231 | Deleting a pattern that occurs makes the text strictly shorter. |
| Text.ReplaceNeverGrows | src/main/kotlin/com/plusmobileapps/devkit/newfeature/NewModuleDialog.kt:229-231 | A value no longer than the pattern never makes the text longer, and one of the pattern's length keeps the text's length. |
| Text.ReplaceAtStart | src/main/kotlin/com/plusmobileapps/devkit/newfeature/NewModuleDialog.kt:229-231 | An occurrence at the start is replaced and the scan resumes after it. |
| Text.ReplaceSkipsPrefix | src/main/kotlin/com/plusmobileapps/devkit/newfeature/NewModuleDialog.kt:229-231 | A prefix without the pattern's first character is copied through unchanged. |
| Text.ReplaceSplitsAt | src/main/kotlin/com/plusmobileapps/devkit/newfeature/NewModuleDialog.kt:229-231 | Replacing in a text cut before a character that the pattern does not contain is the same as replacing in each part. |
| Text.ReplaceByLines | src/main/kotlin/com/plusmobileapps/devkit/newfeature/NewModuleDialog.kt:229-231 | For a pattern without a line feed, replacing in a multi-line text is the same as replacing in each line. |
| Text.ReplaceCharIsSplitJoin | src/main/kotlin/com/plusmobileapps/devkit/newfeature/ModuleCreator.kt:199 | Replacing a single character is splitting at it and joining with the replacement, so `/` to `:` rewrites each path separator. |
| Lists.FilterMembers | src/main/kotlin/com/plusmobileapps/devkit/newfeature/ModuleCreator.kt:224-229 | An element survives `filterNot` exactly when it occurs and is not dropped. |
| Lists.FilterAppend | src/main/kotlin/com/plusmobileapps/devkit/newfeature/ModuleCreator.kt:224-229 | Filtering works line by line: filtering a concatenation concatenates the filtered parts, so the relative order of kept lines is preserved. |
| Lists.CollectAppend | src/main/kotlin/com/plusmobileapps/devkit/newfeature/ModuleCreator.kt:212-218 | Collecting found values works line by line and keeps line order. |
| Lists.CollectSource | src/main/kotlin/com/plusmobileapps/devkit/newfeature/ModuleCreator.kt:212-218 | Every collected value was found in some line. |
| StringOrder.LessIrreflexive | src/main/kotlin/com/plusmobileapps/devkit/newfeature/ModuleCreator.kt:232 | No string sorts before itself. |
| StringOrder.LessTransitive | src/main/kotlin/com/plusmobileapps/devkit/newfeature/ModuleCreator.kt:232 | The lexicographic order used by `sorted()` is transitive. |
| StringOrder.LessTotal | src/main/kotlin/com/plusmobileapps/devkit/newfeature/ModuleCreator.kt:232 | Any two different strings are ordered one way or the other. |
| StringOrder.LessAsymmetric | src/main/kotlin/com/plusmobileapps/devkit/newfeature/ModuleCreator.kt:232 | Two strings are never each before the other. |
| StringOrder.InsertKeepsOrder | src/main/kotlin/com/plusmobileapps/devkit/newfeature/ModuleCreator.kt:232 | Inserting into a strictly sorted list keeps it strictly sorted and adds exactly the inserted element. |
| StringOrder.SortDistinct | src/main/kotlin/com/plusmobileapps/devkit/newfeature/ModuleCreator.kt:209-232 | Sorting a collected set gives a strictly ascending list (so no duplicates) of exactly the distinct input elements. |
| StringOrder.SortedUnique | src/main/kotlin/com/plusmobileapps/devkit/newfeature/ModuleCreator.kt:232 | Two strictly sorted lists with the same elements are equal. |
| StringOrder.SortDistinctCanonical | src/main/kotlin/com/plusmobileapps/devkit/newfeature/ModuleCreator.kt:209-232 | The sorted set depends only on which elements occur, not on their order or repetition. |
| SettingsMerge.MatchAtIff | src/main/kotlin/com/plusmobileapps/devkit/newfeature/ModuleCreator.kt:215 | The backtracking matcher's test at an index agrees with the pattern `include("…")` with a non-empty quote-free group, and the group is determined by the index. |
| SettingsMerge.QuoteFreeLength | src/main/kotlin/com/plusmobileapps/devkit/newfeature/ModuleCreator.kt:215 | The group candidate runs over quote-free characters up to the next quote or the end. |
| SettingsMerge.FindFromFirst | src/main/kotlin/com/plusmobileapps/devkit/newfeature/ModuleCreator.kt:215 | Scanning from an index reports the group of the first matching index from there on, and nothing only when no later index matches. |
| SettingsMerge.FindIncludeLeftmost | src/main/kotlin/com/plusmobileapps/devkit/newfeature/ModuleCreator.kt:215-216 | `find` yields a group exactly when the pattern matches somewhere with that group and at no earlier index. |
| SettingsMerge.FindIncludeNone | src/main/kotlin/com/plusmobileapps/devkit/newfeature/ModuleCreator.kt:215-216 | `find` yields nothing exactly when the pattern matches nowhere. |
| SettingsMerge.KeptLinesMembers | src/main/kotlin/com/plusmobileapps/devkit/newfeature/ModuleCreator.kt:224-229 | A line survives the merge exactly when it occurs and is not a directive (its trimmed form starts with `include(` and holds a quote); directives are exactly the dropped lines. |
| SettingsMerge.PartsAppend | src/main/kotlin/com/plusmobileapps/devkit/newfeature/ModuleCreator.kt:212-229 | Dropping directives and extracting paths both work line by line, so kept lines stay in their original relative order. |
| SettingsMerge.TwoArgumentsDropped | src/main/kotlin/com/plusmobileapps/devkit/newfeature/ModuleCreator.kt:213-227 | The line `include("a", "b")` is dropped as a directive but contributes no path. |
| SettingsMerge.TwoArgumentsUnmatched | src/main/kotlin/com/plusmobileapps/devkit/newfeature/ModuleCreator.kt:215 | The pattern does not match `include("a", "b")` anywhere. |
| SettingsMerge.DirectiveByShape | src/main/kotlin/com/plusmobileapps/devkit/newfeature/ModuleCreator.kt:213-214 | A line that starts with `include("` and ends with `)` is its own trimmed form and counts as a directive. |
| SettingsMerge.EmptyLineKept | src/main/kotlin/com/plusmobileapps/devkit/newfeature/ModuleCreator.kt:224-229 | An empty line is never a directive, so it is kept. |
| SettingsMerge.RenderedIsDirective | src/main/kotlin/com/plusmobileapps/devkit/newfeature/ModuleCreator.kt:232 | A directive the merge writes counts as a directive when read again. |
| SettingsMerge.RenderedIsTrimmed | src/main/kotlin/com/plusmobileapps/devkit/newfeature/ModuleCreator.kt:232 | A written directive has no surrounding whitespace. |
| SettingsMerge.RenderedShape | src/main/kotlin/com/plusmobileapps/devkit/newfeature/ModuleCreator.kt:232 | A written directive starts with `include("` and ends with `)`. |
| SettingsMerge.RenderedEntry | src/main/kotlin/com/plusmobileapps/devkit/newfeature/ModuleCreator.kt:213-216 | Reading a written directive for a non-empty, quote-free path yields that path. |
| SettingsMerge.RenderedFound | src/main/kotlin/com/plusmobileapps/devkit/newfeature/ModuleCreator.kt:215-216 | The pattern finds exactly the written path in a written directive. |
| SettingsMerge.RenderedMatches | src/main/kotlin/com/plusmobileapps/devkit/newfeature/ModuleCreator.kt:215 | The pattern matches a written directive at its start with the path as group. |
| SettingsMerge.RenderedNoBreak | src/main/kotlin/com/plusmobileapps/devkit/newfeature/ModuleCreator.kt:232 | A directive written for a single-line path is a single line. |
| SettingsMerge.EntryOfIsEntry | src/main/kotlin/com/plusmobileapps/devkit/newfeature/ModuleCreator.kt:212-218 | A path read from a single line is non-empty, quote-free and single-line, so it can be written back. |
| SettingsMerge.GroupCharIn | src/main/kotlin/com/plusmobileapps/devkit/newfeature/ModuleCreator.kt:215-216 | A matched group holds only characters of the line it was found in. |
| SettingsMerge.RenderAllReadBack | src/main/kotlin/com/plusmobileapps/devkit/newfeature/ModuleCreator.kt:212-232 | Directives written for writable paths are all dropped when read again, and yield exactly those paths back, in order. |
| SettingsMerge.ExtractedAreEntries | src/main/kotlin/com/plusmobileapps/devkit/newfeature/ModuleCreator.kt:212-218 | All paths read from single-line text are writable. |
| SettingsMerge.RenderAllNoBreak | src/main/kotlin/com/plusmobileapps/devkit/newfeature/ModuleCreator.kt:232 | The written directive block consists of single lines. |
| SettingsMerge.SortedUnionFacts | src/main/kotlin/com/plusmobileapps/devkit/newfeature/ModuleCreator.kt:221-232 | The sorted union of writable paths with at least one new path is non-empty and writable. |
| SettingsMerge.KeptLinesNoBreak | src/main/kotlin/com/plusmobileapps/devkit/newfeature/ModuleCreator.kt:224-229 | The surviving lines are single lines. |
| SettingsMerge.MergedEntriesFacts | src/main/kotlin/com/plusmobileapps/devkit/newfeature/ModuleCreator.kt:209-232 | With at least one writable new path, the merged path list is non-empty and writable. |
| SettingsMerge.KeptLinesKept | src/main/kotlin/com/plusmobileapps/devkit/newfeature/ModuleCreator.kt:224-229 | Every surviving line passes the survival test. |
| SettingsMerge.MergeKeptAreKept | src/main/kotlin/com/plusmobileapps/devkit/newfeature/ModuleCreator.kt:224-240 | The non-directive lines of the merged text are all non-directives. |
| SettingsMerge.MergeUnfold | src/main/kotlin/com/plusmobileapps/devkit/newfeature/ModuleCreator.kt:209-240 | The merged text is the surviving lines assembled with the sorted directive block of the merged path list. |
| SettingsMerge.AssembleLines | src/main/kotlin/com/plusmobileapps/devkit/newfeature/ModuleCreator.kt:234-240 | If the remainder is blank the output lines are just the directives; otherwise they are the surviving lines, an empty line unless the remainder already ended with a line feed, then the directives. |
| SettingsMerge.LinesAfterSeparator | src/main/kotlin/com/plusmobileapps/devkit/newfeature/ModuleCreator.kt:238-239 | The separator is one line feed after a remainder ending in a line feed and two otherwise, which in lines means one empty line exactly in the second case. |
| SettingsMerge.LinesAfterEmptyLine | src/main/kotlin/com/plusmobileapps/devkit/newfeature/ModuleCreator.kt:238-239 | Two line feeds between remainder and block put exactly one empty line between them. |
| SettingsMerge.MergeLines | src/main/kotlin/com/plusmobileapps/devkit/newfeature/ModuleCreator.kt:209-240 | Once at least one writable path is added, the merged text's lines are the original's non-directive lines (with one empty line after them, none when they are blank) followed by one directive per path of the sorted, duplicate-free union of old and new paths. |
| SettingsMerge.ReadBack | src/main/kotlin/com/plusmobileapps/devkit/newfeature/ModuleCreator.kt:212-229 | Reading back non-directive lines followed by written directives gives those lines as survivors and exactly those paths. |
| SettingsMerge.MergeReadBack | src/main/kotlin/com/plusmobileapps/devkit/newfeature/ModuleCreator.kt:209-240 | Reading the merged text again gives the same surviving lines, the directive block, and the merged path list. |
| SettingsMerge.MergeContents | src/main/kotlin/com/plusmobileapps/devkit/newfeature/ModuleCreator.kt:209-232 | The merged text's directives are exactly one per path, strictly sorted and duplicate-free, and its paths are exactly the union of the old paths and the new ones. |
| SettingsMerge.AssembleAgain | src/main/kotlin/com/plusmobileapps/devkit/newfeature/ModuleCreator.kt:234-240 | Assembling again after the remainder gained its separator gives the same text. |
| SettingsMerge.SecondPassEntries | src/main/kotlin/com/plusmobileapps/devkit/newfeature/ModuleCreator.kt:209-232 | A second merge of the same paths sees the same merged path list as the first. |
| SettingsMerge.MergeIdempotent | src/main/kotlin/com/plusmobileapps/devkit/newfeature/ModuleCreator.kt:209-240 | Merging the same writable paths into the merged output again yields identical text. |
| SettingsMerge.MergeOrderIndependent | src/main/kotlin/com/plusmobileapps/devkit/newfeature/ModuleCreator.kt:221-232 | Only which paths are added matters, not their order or repetition. |
| ScriptLines.PlaceholderShapes | src/main/kotlin/com/plusmobileapps/devkit/newfeature/NewModuleDialog.kt:229-231 | The three placeholders start with `$` and have the lengths of `$directoryName`, `$projectDirectory` and `$namespace`. |
| ScriptLines.PlaceholderSeparators | src/main/kotlin/com/plusmobileapps/devkit/newfeature/NewModuleDialog.kt:229-231 | No placeholder holds `:` or a line break. |
| ScriptLines.PlaceholdersDiffer | src/main/kotlin/com/plusmobileapps/devkit/newfeature/NewModuleDialog.kt:229-231 | No placeholder is a prefix of another. |
| Templates.FixedLineFacts | src/main/kotlin/com/plusmobileapps/devkit/newfeature/BuildGradleDefaults.kt:4-31 | The fixed skeleton lines of a template hold no line break, no `$` and no project dependency. |
| Templates.BuildFileLines | src/main/kotlin/com/plusmobileapps/devkit/newfeature/BuildGradleDefaults.kt:4-93 | The lines of a template are its skeleton with the dependency lines in the common source set. |
| Templates.BuildFileDependencyLines | src/main/kotlin/com/plusmobileapps/devkit/newfeature/BuildGradleDefaults.kt:4-93 | The only project-dependency lines of a template are its declared dependency lines. |
| Templates.DependenciesDeclared | src/main/kotlin/com/plusmobileapps/devkit/newfeature/BuildGradleDefaults.kt:33-93 | Each default declares exactly one project dependency per upstream kind, in order. |
| Templates.DependencyDirection | src/main/kotlin/com/plusmobileapps/devkit/newfeature/BuildGradleDefaults.kt:33-93 | The project dependencies of a default follow public before impl before testing: public none, impl public, testing public then impl. |
| Templates.BuildFileDollars | src/main/kotlin/com/plusmobileapps/devkit/newfeature/BuildGradleDefaults.kt:4-31 | A skeleton without placeholder dependencies holds no `$`. |
| Templates.PublicUnaffected | src/main/kotlin/com/plusmobileapps/devkit/newfeature/BuildGradleDefaults.kt:4-31 | The public default holds no `$`, so every substitution leaves it unchanged. |
| Templates.NamespaceUnused | src/main/kotlin/com/plusmobileapps/devkit/actions/NewFeatureModuleDefaults.kt:4-93 | No default mentions `$namespace`: replacing it is the identity on all three. |
| Templates.NamespaceNotInPrefix | src/main/kotlin/com/plusmobileapps/devkit/newfeature/BuildGradleDefaults.kt:49 | The dependency prefix `$projectDirectory:$directoryName` does not contain `$namespace`. |
| Templates.Resolve | src/main/kotlin/com/plusmobileapps/devkit/newfeature/NewModuleDialog.kt:227-246 | A template mentioning none of `$directoryName`, `$projectDirectory` and `$namespace` comes through the three replacements unchanged. |
| Templates.ResolvePaths | src/main/kotlin/com/plusmobileapps/devkit/ui/NewModuleComposeDialog.kt:164-180 | A template mentioning neither path placeholder comes through the two replacements unchanged, `$namespace` included. |
| Templates.SubstituteBuildFile | src/main/kotlin/com/plusmobileapps/devkit/newfeature/NewModuleDialog.kt:229-231 | Replacing a placeholder in a template replaces it in the dependency lines only. |
| Templates.SubstituteDependency | src/main/kotlin/com/plusmobileapps/devkit/newfeature/NewModuleDialog.kt:229-231 | Replacing a placeholder in a dependency line replaces it in the path prefix only. |
| Templates.SubstituteDependencies | src/main/kotlin/com/plusmobileapps/devkit/newfeature/NewModuleDialog.kt:229-231 | Replacing a placeholder in a default's dependencies is the same as replacing it in their common prefix. |
| Templates.SubstituteDefault | src/main/kotlin/com/plusmobileapps/devkit/newfeature/NewModuleDialog.kt:229-231 | Replacing a placeholder in a default template is the same as replacing it in the dependency prefix. |
| Templates.DirectoryInPrefix | src/main/kotlin/com/plusmobileapps/devkit/newfeature/NewModuleDialog.kt:229 | Substituting the directory name turns the prefix into `$projectDirectory:<directory>`. |
| Templates.ProjectInPrefix | src/main/kotlin/com/plusmobileapps/devkit/newfeature/NewModuleDialog.kt:230 | Substituting the project directory then gives `<projectDirectory>:<directory>`. |
| Templates.NamespaceInPrefix | src/main/kotlin/com/plusmobileapps/devkit/newfeature/NewModuleDialog.kt:231 | A prefix without `$` is unchanged by the namespace substitution. |
| Templates.ResolveDefault | src/main/kotlin/com/plusmobileapps/devkit/newfeature/BuildGradleDefaults.kt:49 | With `$`-free values, a default template after substitution depends on `<projectDirectory>:<directory>:<upstream kind>`, e.g. the impl default on `p:d:public`. |
| Templates.ResolvedDependencies | src/main/kotlin/com/plusmobileapps/devkit/newfeature/BuildGradleDefaults.kt:79-80 | The project-dependency lines of a resolved default are exactly those of the upstream kinds under the substituted prefix. |
| Templates.CreatorDefaultIsResolved | src/main/kotlin/com/plusmobileapps/devkit/newfeature/ModuleCreator.kt:112-172 | The creator's own fallback for a kind is the dialog default resolved with project directory `:shared`. |
| Templates.MultiplatformNoDependencies | src/main/kotlin/com/plusmobileapps/devkit/ui/ModuleCreator.kt:64-91 | The fixed multiplatform build file declares no project dependency. |
| Forms.Kinds | src/main/kotlin/com/plusmobileapps/devkit/newfeature/ModuleCreator.kt:37-48 | The selected kinds are exactly the ticked ones, in the order public, impl, testing, and none exactly when nothing is ticked. |
| Forms.KindsDistinct | src/main/kotlin/com/plusmobileapps/devkit/newfeature/ModuleCreator.kt:37-48 | No kind is handled twice. |
| Forms.Namespace | src/main/kotlin/com/plusmobileapps/devkit/newfeature/ModuleCreator.kt:174-178 | The namespace directories of the derived namespace are the package's segments followed by the directory's, or the package's alone when either is empty. |
| Forms.TrimmedNamespace | src/main/kotlin/com/plusmobileapps/devkit/newfeature/NewModuleDialog.kt:125-133 | The auto-filled namespace has no surrounding whitespace and is empty exactly when the package name is blank. |
| Forms.Validate | src/main/kotlin/com/plusmobileapps/devkit/newfeature/NewModuleDialog.kt:185-198 | Validation reports a blank directory first, then a blank package, then no ticked kind, and nothing exactly when all three pass. |
| Forms.ValidFormProceeds | src/main/kotlin/com/plusmobileapps/devkit/newfeature/NewModuleDialog.kt:185-207 | A form that passes validation has non-empty trimmed names and at least one selected kind. |
| Forms.ProjectDirectory | src/main/kotlin/com/plusmobileapps/devkit/newfeature/NewModuleDialog.kt:213-224 | The project directory always starts with `:`. |
| Forms.ProjectDirectoryOfBase | src/main/kotlin/com/plusmobileapps/devkit/newfeature/NewModuleDialog.kt:215-219 | A parent equal to the project base gives `:`. |
| Forms.ProjectDirectoryBelow | src/main/kotlin/com/plusmobileapps/devkit/newfeature/NewModuleDialog.kt:215-220 | A parent `base/s1/…/sn` gives `:s1:…:sn`. |
| Forms.ProjectDirectoryOutside | src/main/kotlin/com/plusmobileapps/devkit/newfeature/NewModuleDialog.kt:221-224 | Without a base path, or a parent path not starting with it, the result is `:` and the parent's name. |
| Forms.ProjectDirectoryNoSlash | src/main/kotlin/com/plusmobileapps/devkit/newfeature/NewModuleDialog.kt:215-220 | Below the base the result holds no `/`. |
| Forms.ProjectDirectorySibling | src/main/kotlin/com/plusmobileapps/devkit/ui/NewModuleComposeDialog.kt:155-159 | A textual prefix test is used: base `/work/app` and parent `/work/app2/lib` give `:2:lib`. |
| Forms.KeysDistinct | src/main/kotlin/com/plusmobileapps/devkit/newfeature/NewModuleDialog.kt:33-38 | The storage keys of the package name, the directory name and the three templates are pairwise different. |
| Forms.SaveFeatureValues | src/main/kotlin/com/plusmobileapps/devkit/actions/NewFeatureModuleViewModel.kt:94-103 | Saving writes exactly the package name and the three templates under their keys; every other key keeps its value. |
| Forms.SaveFeatureValuesReadBack | src/main/kotlin/com/plusmobileapps/devkit/newfeature/NewModuleDialog.kt:170-178 | What is saved under the package and template keys is read back as saved. |
| FileSystem.Apply | src/main/kotlin/com/plusmobileapps/devkit/newfeature/ModuleCreator.kt:62-80 | Making a directory or file succeeds exactly when nothing exists at the path, the parent is a directory and the host allows it; writing needs an existing file; a failure names its path; well-formedness is kept. |
| FileSystem.ReadAfterWrite | src/main/kotlin/com/plusmobileapps/devkit/newfeature/ModuleCreator.kt:201-242 | Reading a file after writing it gives what was written; writing one file changes what no other path reads. |
| FileSystem.Run | src/main/kotlin/com/plusmobileapps/devkit/newfeature/ModuleCreator.kt:29-59 | Steps run in order, and a stop names the index of a step of the list. |
| FileSystem.RunAppend | src/main/kotlin/com/plusmobileapps/devkit/newfeature/ModuleCreator.kt:29-59 | Running two step lists in turn is running their concatenation, with the stopping index shifted. |
| FileSystem.StoppedAfterPrefix | src/main/kotlin/com/plusmobileapps/devkit/newfeature/ModuleCreator.kt:57-58 | A stopped run leaves exactly what the steps before the failing one made, nothing is rolled back, and the failing step fails on that state. |
| FileSystem.RunGrows | src/main/kotlin/com/plusmobileapps/devkit/newfeature/ModuleCreator.kt:29-59 | Running steps removes no directory and no file. |
| FileSystem.RunWellFormed | src/main/kotlin/com/plusmobileapps/devkit/newfeature/ModuleCreator.kt:29-59 | Running steps keeps the tree well formed. |
| FileSystem.RunMakesDir | src/main/kotlin/com/plusmobileapps/devkit/newfeature/ModuleCreator.kt:62-69 | A completed run has made every directory it was asked to make. |
| FileSystem.RunKeepsFile | src/main/kotlin/com/plusmobileapps/devkit/newfeature/ModuleCreator.kt:62-80 | A file that no step writes keeps its content. |
| FileSystem.RunEndsWithWrite | src/main/kotlin/com/plusmobileapps/devkit/newfeature/ModuleCreator.kt:79-80 | A completed run ending with a write leaves that content in the file. |
| Scaffold.NestedDirs | src/main/kotlin/com/plusmobileapps/devkit/newfeature/ModuleCreator.kt:174-178 | One directory per namespace segment, each nested in the previous one. |
| Scaffold.PlanOrder | src/main/kotlin/com/plusmobileapps/devkit/ui/ModuleCreator.kt:29-40 | The feature directory is made first, then the selected sub-module directories in the fixed order. |
| Scaffold.ModuleDirs | src/main/kotlin/com/plusmobileapps/devkit/newfeature/ModuleCreator.kt:63-69 | A sub-module plan makes the sub-module directory and `src/commonMain/kotlin` with every namespace prefix below it. |
| Scaffold.ModuleWritePaths | src/main/kotlin/com/plusmobileapps/devkit/newfeature/ModuleCreator.kt:79-80 | A sub-module plan writes only its own `build.gradle.kts`, in the sub-module directory. |
| Scaffold.KindWritePaths | src/main/kotlin/com/plusmobileapps/devkit/newfeature/ModuleCreator.kt:37-48 | The plans for several kinds write exactly their build files. |
| Scaffold.BuildFilesDiffer | src/main/kotlin/com/plusmobileapps/devkit/newfeature/ModuleCreator.kt:79 | Different kinds have different build files. |
| Scaffold.KindStepsContent | src/main/kotlin/com/plusmobileapps/devkit/newfeature/ModuleCreator.kt:72-80 | After a completed run each selected kind's build file holds that kind's content. |
| Scaffold.PlanLayout | src/main/kotlin/com/plusmobileapps/devkit/newfeature/ModuleCreator.kt:62-81 | After a completed run the feature directory exists and each selected sub-module is laid out with its content. |
| Scaffold.PlanWritePaths | src/main/kotlin/com/plusmobileapps/devkit/newfeature/ModuleCreator.kt:28-81 | The whole plan writes only the selected kinds' build files. |
| Scaffold.NoOldBuildFile | src/main/kotlin/com/plusmobileapps/devkit/newfeature/ModuleCreator.kt:32 | Below a path that does not exist no build file exists. |
| Scaffold.PlanKeepsOldFiles | src/main/kotlin/com/plusmobileapps/devkit/newfeature/ModuleCreator.kt:28-81 | The plan changes no file that existed before. |
| Scaffold.PlanOnExisting | src/main/kotlin/com/plusmobileapps/devkit/newfeature/ModuleCreator.kt:32 | A feature directory that already exists stops the plan at its first step with nothing changed. |
| Notices.Text | src/main/kotlin/com/plusmobileapps/devkit/newfeature/ModuleCreator.kt:242-246 | The settings warning and the creation error end with the host's message. |
| Notices.TextTellsNotice | src/main/kotlin/com/plusmobileapps/devkit/newfeature/ModuleCreator.kt:54-58 | Equal notice texts mean the same level and the same kind of success, whatever the messages. |
| FeatureCreator.PathPrefix | src/main/kotlin/com/plusmobileapps/devkit/newfeature/ModuleCreator.kt:198-199 | The path prefix is empty exactly for the project root; otherwise it starts with `:` and holds no `/`. |
| FeatureCreator.PathPrefixOfSegments | src/main/kotlin/com/plusmobileapps/devkit/newfeature/ModuleCreator.kt:199 | A relative path `s1/…/sn` becomes `:s1:…:sn`. |
| FeatureCreator.NewEntriesAreEntries | src/main/kotlin/com/plusmobileapps/devkit/newfeature/ModuleCreator.kt:204-206 | Paths built from quote-free single-line names can be written and read back. |
| FeatureCreator.ContentOfChoice | src/main/kotlin/com/plusmobileapps/devkit/newfeature/ModuleCreator.kt:72-77 | A sub-module gets the template it was given or, when none was given, the creator's fallback. |
| FeatureCreator.UpdateSettings | src/main/kotlin/com/plusmobileapps/devkit/newfeature/ModuleCreator.kt:191-248 | The settings update makes or removes no path, touches no file but the settings file, and raises at most one notice. |
| FeatureCreator.SettingsRewritten | src/main/kotlin/com/plusmobileapps/devkit/newfeature/ModuleCreator.kt:201-244 | A settings file the host lets be written gets the rewrite of its text, and the update is reported. |
| FeatureCreator.SettingsWarning | src/main/kotlin/com/plusmobileapps/devkit/newfeature/ModuleCreator.kt:245-246 | A settings path that holds a directory, or a settings file the host refuses to write, costs one warning and changes nothing. |
| FeatureCreator.Finish | src/main/kotlin/com/plusmobileapps/devkit/newfeature/ModuleCreator.kt:51-58 | A failed plan ends with the error alone and nothing undone; otherwise the settings update may come first and the success notice comes last; only the settings file may change. |
| FeatureCreator.FinishRewrites | src/main/kotlin/com/plusmobileapps/devkit/newfeature/ModuleCreator.kt:51-56 | After a completed plan with sub-modules, a writable settings file gets the rewrite, then the settings and success notices in that order. |
| FeatureCreator.FinishKeepsLayout | src/main/kotlin/com/plusmobileapps/devkit/newfeature/ModuleCreator.kt:51-53 | The settings update leaves a sub-module's layout as the plan made it. |
| FeatureCreator.CreateModules | src/main/kotlin/com/plusmobileapps/devkit/newfeature/ModuleCreator.kt:28-60 | A failed plan yields the failure notice alone; a completed one ends with the success notice. |
| FeatureCreator.ModuleIsNotSettings | src/main/kotlin/com/plusmobileapps/devkit/newfeature/ModuleCreator.kt:195 | Any `build.gradle.kts` is a different file from `settings.gradle.kts`. |
| FeatureCreator.FeatureLayout | src/main/kotlin/com/plusmobileapps/devkit/newfeature/ModuleCreator.kt:62-81 | A completed plan lays out each selected sub-module with its namespace directories and its content. |
| FeatureCreator.CreateLayout | src/main/kotlin/com/plusmobileapps/devkit/newfeature/ModuleCreator.kt:62-81 | On success each selected sub-module has `src/commonMain/kotlin` plus one nested directory per namespace segment and a build file with the given template or the fallback. |
| FeatureCreator.PlanKeepsFiles | src/main/kotlin/com/plusmobileapps/devkit/newfeature/ModuleCreator.kt:62-81 | The plan changes no file that existed before. |
| FeatureCreator.CreateKeepsFiles | src/main/kotlin/com/plusmobileapps/devkit/newfeature/ModuleCreator.kt:28-60 | The creator changes no existing file except the settings file and removes nothing. |
| FeatureCreator.RegisterIsMerge | src/main/kotlin/com/plusmobileapps/devkit/newfeature/ModuleCreator.kt:198-242 | The rewrite of the settings text is the merge with the prefixed new paths. |
| FeatureCreator.CreateRegisters | src/main/kotlin/com/plusmobileapps/devkit/newfeature/ModuleCreator.kt:51-53 | After a completed plan with sub-modules, a writable settings file holds the merge of its old text with the new paths, and the settings notice precedes the success notice. |
| FeatureCreator.CreateSkipsSettings | src/main/kotlin/com/plusmobileapps/devkit/newfeature/ModuleCreator.kt:51-53 | With no sub-module, no base directory or no settings file the settings stay as they are and only success is reported. |
| FeatureCreator.CreateWarns | src/main/kotlin/com/plusmobileapps/devkit/newfeature/ModuleCreator.kt:245-246 | A settings file the host will not write, or a directory in its place, costs a warning; the sub-modules stay. |
| FeatureCreator.FallbackDependencies | src/main/kotlin/com/plusmobileapps/devkit/newfeature/ModuleCreator.kt:112-172 | The fallback build files depend on the upstream sub-modules under `:shared:<directory>`. |
| FeatureCreator.FallbackImpl | src/main/kotlin/com/plusmobileapps/devkit/newfeature/ModuleCreator.kt:128 | The impl fallback depends on `:shared:<directory>:public` alone. |
| UiCreator.CreateModules | src/main/kotlin/com/plusmobileapps/devkit/ui/ModuleCreator.kt:25-47 | Exactly one notice: success exactly when the plan completes, failure exactly when it stops. |
| UiCreator.UiLayout | src/main/kotlin/com/plusmobileapps/devkit/ui/ModuleCreator.kt:49-62 | On success each selected sub-module has `src/commonMain/kotlin/<segments>/<directory>` and its build file in the sub-module directory is the fixed file without project dependencies. |
| UiCreator.UiKeepsFiles | src/main/kotlin/com/plusmobileapps/devkit/ui/ModuleCreator.kt:25-47 | No existing file changes, the settings file included, and nothing is removed. |
| UiCreator.UiFailureKeepsPrefix | src/main/kotlin/com/plusmobileapps/devkit/ui/ModuleCreator.kt:44-45 | A failure keeps what the earlier steps made and reports the failing step's path. |
| UiCreator.UiOnExisting | src/main/kotlin/com/plusmobileapps/devkit/ui/ModuleCreator.kt:29 | An existing feature directory stops the creator at once with nothing changed. |
| UiCreator.UiEmptySelection | src/main/kotlin/com/plusmobileapps/devkit/ui/ModuleCreator.kt:29-43 | With nothing selected only the feature directory is made and success is reported. |
| Editing.Toggle | src/main/kotlin/com/plusmobileapps/devkit/actions/NewFeatureModuleViewModel.kt:58-74 | A check box update changes exactly its own kind. |
| Editing.Edit | src/main/kotlin/com/plusmobileapps/devkit/actions/NewFeatureModuleViewModel.kt:76-92 | A template update changes exactly its own template. |
| Editing.Step | src/main/kotlin/com/plusmobileapps/devkit/actions/NewFeatureModuleViewModel.kt:38-92 | A package or directory update stores the value and re-derives the namespace; a namespace update changes only the namespace; check box and template updates change only their own field. |
| Editing.Steps | src/main/kotlin/com/plusmobileapps/devkit/newfeature/NewModuleDialog.kt:136-147 | Over a session of edits, the check boxes change only through check-box events and the templates only through template edits. |
| Editing.StepsAppend | src/main/kotlin/com/plusmobileapps/devkit/actions/NewFeatureModuleViewModel.kt:38-92 | Applying two event sequences in turn is applying their concatenation. |
| Editing.DerivedKept | src/main/kotlin/com/plusmobileapps/devkit/newfeature/NewModuleDialog.kt:124-147 | As long as nobody types into the namespace field, it keeps showing the derived namespace. |
| Editing.LatestTypingWins | src/main/kotlin/com/plusmobileapps/devkit/actions/NewFeatureModuleViewModel.kt:165-179 | After a package or directory update with no later namespace update, the namespace is the derived one. |
| Editing.ManualNamespaceKept | src/main/kotlin/com/plusmobileapps/devkit/actions/NewFeatureModuleViewModel.kt:38-42 | Check box and template updates leave a hand-typed namespace alone. |
| Editing.TemplatesReadBack | src/main/kotlin/com/plusmobileapps/devkit/newfeature/NewModuleDialog.kt:170-178 | What was saved is what the next load shows. |
| FeatureDialog.LoadDerived | src/main/kotlin/com/plusmobileapps/devkit/newfeature/NewModuleDialog.kt:163-167 | The dialog opens showing the namespace its typing rule would derive. |
| FeatureDialog.Save | src/main/kotlin/com/plusmobileapps/devkit/newfeature/NewModuleDialog.kt:170-183 | After OK, reopening the dialog shows the saved package and templates, the trimmed package as namespace, an empty directory and only public ticked; no other stored value changes. |
| FeatureDialog.CreateModule | src/main/kotlin/com/plusmobileapps/devkit/newfeature/NewModuleDialog.kt:201-259 | Nothing when a trimmed name is empty; otherwise the namespace field, the trimmed directory, the check box states, and each selected template with the three placeholders replaced in order. |
| FeatureDialog.ValidIffCreates | src/main/kotlin/com/plusmobileapps/devkit/newfeature/NewModuleDialog.kt:185-207 | A form passes validation exactly when `createModule` goes ahead and some kind is ticked. |
| FeatureDialog.DerivedRequestNamespace | src/main/kotlin/com/plusmobileapps/devkit/newfeature/NewModuleDialog.kt:125-133 | While the namespace shows the derived value, the creator gets `<trimmed package>.<trimmed directory>`. |
| FeatureDialog.DialogTemplatesUsed | src/main/kotlin/com/plusmobileapps/devkit/newfeature/NewModuleDialog.kt:248-259 | The creator writes the dialog's processed template for every selected kind, never its own fallback. |
| FeatureDialog.DefaultResolved | src/main/kotlin/com/plusmobileapps/devkit/newfeature/NewModuleDialog.kt:227-246 | An unedited default reaches the creator depending on `<projectDirectory>:<directory>:<upstream kind>`. |
| FeatureDialog.PlainTemplateKept | src/main/kotlin/com/plusmobileapps/devkit/newfeature/NewModuleDialog.kt:227-246 | A template without placeholders reaches the creator as written. |
| FeatureDialog.DialogBuildFile | src/main/kotlin/com/plusmobileapps/devkit/newfeature/NewModuleDialog.kt:248-261 | After a completed run each selected sub-module's build file holds the dialog's processed template. |
| FeatureDialog.RequestLayout | src/main/kotlin/com/plusmobileapps/devkit/newfeature/ModuleCreator.kt:72-80 | After a completed run a selected sub-module's build file holds the content chosen for it. |
| ComposeDialog.NamespaceAlwaysDerived | src/main/kotlin/com/plusmobileapps/devkit/ui/NewModuleComposeDialog.kt:95-99 | The read-only namespace always shows the untrimmed derivation. |
| ComposeDialog.Save | src/main/kotlin/com/plusmobileapps/devkit/ui/NewModuleComposeDialog.kt:116-128 | After OK, reopening shows the saved package and templates untrimmed, the package as namespace, and only public ticked; no other stored value changes. |
| ComposeDialog.CreateModule | src/main/kotlin/com/plusmobileapps/devkit/ui/NewModuleComposeDialog.kt:146-180 | Nothing when an untrimmed name is empty; otherwise the namespace `<package>.<directory>` whatever is shown, and each selected template with only the directory and project placeholders replaced. |
| ComposeDialog.ValidatedCreates | src/main/kotlin/com/plusmobileapps/devkit/ui/NewModuleComposeDialog.kt:130-149 | A validated form always gets past the emptiness check. |
| ComposeDialog.BlankNamePassesCreate | src/main/kotlin/com/plusmobileapps/devkit/ui/NewModuleComposeDialog.kt:131-147 | A whitespace directory name passes that check but fails validation. |
| ComposeDialog.ShownNamespaceUsed | src/main/kotlin/com/plusmobileapps/devkit/ui/NewModuleComposeDialog.kt:95-151 | When the shown namespace is the derived one, it is the namespace the creator gets. |
| ComposeDialog.DefaultResolved | src/main/kotlin/com/plusmobileapps/devkit/ui/NewModuleComposeDialog.kt:227-274 | An unedited default reaches the creator depending on `<projectDirectory>:<directory>:<upstream kind>`. |
| ComposeDialog.NamespacePlaceholderKept | src/main/kotlin/com/plusmobileapps/devkit/ui/NewModuleComposeDialog.kt:164-180 | `$namespace` is left verbatim: a template without path placeholders reaches the creator as written. |
| ComposeDialog.TemplatesIgnored | src/main/kotlin/com/plusmobileapps/devkit/ui/ModuleCreator.kt:10-18 | Read as a call of `ui.ModuleCreator` with the template arguments dropped (as written, the call does not compile), the creator writes the fixed multiplatform file whatever templates the editors hold. |
| ComposeDialog.DirectoryNestedTwice | src/main/kotlin/com/plusmobileapps/devkit/ui/ModuleCreator.kt:93-101 | Under the same reading of the creator call, the namespace `<package>.<directory>` puts the directory name twice in the source path. |
| ModuleDialog.Save | src/main/kotlin/com/plusmobileapps/devkit/ui/NewModuleDialog.kt:96-100 | Saving writes exactly the two names; every other key keeps its value. |
| ModuleDialog.ReopenAfterSave | src/main/kotlin/com/plusmobileapps/devkit/ui/NewModuleDialog.kt:90-105 | Reopening after OK shows both names again. |
| ModuleDialog.CreateModule | src/main/kotlin/com/plusmobileapps/devkit/ui/NewModuleDialog.kt:123-142 | Nothing when a trimmed name is empty; otherwise the trimmed package alone as namespace and the trimmed directory. |
| ModuleDialog.ValidIffCreates | src/main/kotlin/com/plusmobileapps/devkit/ui/NewModuleDialog.kt:107-129 | A form passes validation exactly when `createModule` goes ahead and some kind is ticked. |
| ModuleDialog.SameSourceDirectories | src/main/kotlin/com/plusmobileapps/devkit/ui/NewModuleDialog.kt:131-132 | Because the creator appends the directory name, the sources land where the derived namespace `<package>.<directory>` would put them. |
| ViewModel.LoadDerivedIff | src/main/kotlin/com/plusmobileapps/devkit/actions/NewFeatureModuleViewModel.kt:23-36 | The loaded namespace matches the derivation exactly when the stored package has no surrounding whitespace. |
| ViewModel.FirstUpdateDerives | src/main/kotlin/com/plusmobileapps/devkit/actions/NewFeatureModuleViewModel.kt:44-56 | The first package or directory update brings the namespace in line. |
| ViewModel.Update | src/main/kotlin/com/plusmobileapps/devkit/actions/NewFeatureModuleViewModel.kt:38-92 | A package or directory update re-derives the namespace from the trimmed new names; a namespace update sets it as typed; check-box and template updates leave the three text fields alone. |
| ViewModel.NamespaceOverwritten | src/main/kotlin/com/plusmobileapps/devkit/actions/NewFeatureModuleViewModel.kt:38-56 | A namespace set by hand survives check box and template updates and is overwritten by the next package or directory update. |
| ViewModel.Save | src/main/kotlin/com/plusmobileapps/devkit/actions/NewFeatureModuleViewModel.kt:94-103 | The next load brings back the saved package and templates, the package as namespace, public and impl ticked; no other stored value changes. |

## Left out

- File I/O (virtual-file creation, content writes and reads) and the write action. These are a pure file tree. `refused` is the set of paths at which the host throws for its own reasons. Exception messages are not modelled; an error names only its path and kind.
- Notifications and `invokeLater`. These are the ordered list of `Notice` values a creator returns; the notification group and the UI thread are not modelled.
- The property store. It is a map from keys to strings.
- NIO `relativize`. The relative path from the project root to the parent directory is a given string (`Host.relative`), and `project.baseDir` is an optional path. Symbolic links and `..` segments are not modelled.
- The IDE's `basePath`, `parentDirectory.path` and `parentDirectory.name`. These are given strings.
- Swing and Compose layout, key listeners, the read-only namespace field's widget, and the StateFlow wiring. A key release in the package or directory field is one `PackageTyped` or `DirectoryTyped` event.
- The new-module dialog in `actions/NewModuleDialog.kt`, the action in `actions/NewFeatureModuleAction.kt`, `newfeature/FileUtil.kt` and `build.gradle.kts`. These are IDE glue and build configuration, and are not part of this model.
- The view model's `createModule`. Its body is commented out, so it changes nothing; there is no member for it.
- `ComposeDialog.TemplatesIgnored` and `ComposeDialog.DirectoryNestedTwice`: the Compose dialog's creator call (`ui/NewModuleComposeDialog.kt:182-193`) does not compile. It passes `publicBuildGradleTemplate`, `implBuildGradleTemplate` and `testingBuildGradleTemplate`. The name `ModuleCreator` resolves to the same-package `ui.ModuleCreator` (`ui/ModuleCreator.kt:10-18`), and its constructor declares no such parameters. `ComposeDialog.CreateModule` keeps the dialog's substitution. It then hands the request to `UiCreator.CreateModules`, so `ComposeDialog.TemplatesIgnored` and `ComposeDialog.DirectoryNestedTwice` model one chosen reading of a call the compiler rejects: the named class with the template arguments dropped. The other reading, `newfeature.ModuleCreator`, would write the templates and update the settings; it is not modelled for this dialog.
- Byte encoding of file contents (`toByteArray`, `String(bytes)`). Contents are strings of characters.
- `StringOrder.Less`: orders by character code point. Kotlin's `compareTo` orders by UTF-16 code unit, and the two differ only for characters above U+FFFF.
- `Text.IsWhitespace`: this is the JVM set of whitespace characters that `trim()` and `isBlank()` test, enumerated. Locale-dependent behaviour is not modelled.
- Windows path separators. Only `/` is handled, as the source's `replace("/", ":")` does.
- `SettingsMerge.MergeIdempotent`: needs at least one new path, and every path non-empty, quote-free and without line breaks. With no new paths the creator never calls the merge. A path with a quote cannot be read back from its own directive.
- `SettingsMerge.MergeContents`: needs the same conditions on the new paths.
- `SettingsMerge.MergeLines`: states the merged lines only when at least one writable path is added. The creator merges only after creating at least one sub-module.
- `Templates.ResolveDefault`: needs the directory name and project directory to hold no `$`. A `$` in them could form a placeholder that a later replacement would rewrite.
- `FeatureCreator.FallbackDependencies`: needs a directory name without line breaks. A line break would split a dependency line.
- `ComposeDialog.DefaultResolved` and `FeatureDialog.DefaultResolved`: same `$`-free condition as `Templates.ResolveDefault`.
