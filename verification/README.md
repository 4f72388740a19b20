# jbang-vscode: a Dafny model of the script and completion logic

This project models the line and string logic at the core of the JBang extension for
VS Code, leaving out the editor glue. The extension recognises JBang scripts by their
`//` directives. It places the run, debug and synchronize code lenses, and completes
directives, Java options, Maven coordinates and Groovy/Kotlin versions. It also turns
pasted Maven XML into `//DEPS` lines, offers a quick fix for unresolved imports, and
drives the new-script and add-missing-dependency wizards.

The Dafny modules follow the source files one by one:

- `Versions` (`src/models/Version.ts`): the `Version` class and its parser, and the version comparators.
- `Directives` (`src/JBangDirectives.ts`): the directive catalog and prefix matching.
- `JBangUtils` (`src/JBangUtils.ts`): directive lines and JBang files.
- `EditorListener` (`src/EditorListener.ts`): the context-key scan.
- `CodeLensProvider` (`src/CodeLensProvider.ts`): the one-pass line scan and the lens selection.
- `TextHelper`, `CompletionHelper` and `CompletionProvider`: the cursor and word scans.
- `DirectivesCompletion`, `JavaOptionsCompletion`, `RemoteDependencyCompletion`,
  `DependencyCompletion`, `GroovyVersionCompletion` and `KotlinVersionCompletion`: the completers.
  `Search` holds the Maven search shared by the dependency completers, and `VersionCache`
  holds the hourly version cache shared by the Groovy and Kotlin completers.
- `Dependencies` (`src/models/Dependency.ts`): Maven coordinates and repository paths.
- `DependencyPasteEditProvider`: pasting Maven XML.
- `AddMissingDependencyWizard` (`src/wizards/JBangAddMissingDependencyWizard.ts`).
- `JBangScriptWizard` and `TemplateExec` (`src/wizards/JBangScriptWizard.ts`, `src/wizards/templateExec.ts`).
- `JBangCodeActions` (`src/codeactions/JBangCodeActions.ts`).

Shared helpers:

- `Text` gives the JavaScript string operations used (`startsWith`, `split`, `join`, `trim`,
  `substring`, `indexOf`, `padStart`, `toLowerCase`, string `<`).
- `Sorting` gives `Array.prototype.sort` as a stable insertion sort, with an in-place array version.
- `Editor` gives the editor's value types (positions, ranges, completion items).
- `Arrays` and `Wrappers` give `find`/`filter` and `Option`.

Code that updates state in place is imperative Dafny:

- `Version.parse`; `EditorListener`; the `VersionCache` object and the script wizard's
  state, as classes.
- The scanning loops of the code lens provider, the directive scanner, the text helpers,
  the de-duplication loop and `findNextDepsLine`, as methods with loop invariants.
- The item pushes, as methods.

Each method is proved against a pure function, and the properties the source promises are
proved as lemmas about that function.

## Model

| member | source | states |
|---|---|---|
| Versions.Segments | src/models/Version.ts:11 | replacing the first `-` and splitting at `.` always gives at least one segment, so the major branch always runs |
| Versions.Parse | src/models/Version.ts:10-45 | a text whose first segment is not numeric parses to 0, 0, 0 with the whole text as qualifier; otherwise that segment's decimal value is the major number and the qualifier is strictly shorter than the text |
| Versions.Version.constructor | src/models/Version.ts:7-9 | the new object's four fields are the parse of the text |
| Versions.Version.ParseFields | src/models/Version.ts:10-45 | starting from 0, 0, 0 and "", shifting segments off the front leaves exactly the fields of the pure parse |
| Versions.ParseNonNumeric | src/models/Version.ts:14-19 | a text whose first character is no digit keeps all of itself as the qualifier, with all numbers 0 |
| Versions.ParseRelease | src/models/Version.ts:13-41 | `a`, `a.b` and `a.b.c` of plain numbers parse to those numbers, missing ones 0, and no qualifier |
| Versions.ParseMajorThenQualifier | src/models/Version.ts:22-30 | after a numeric major, a qualifier text `q` whose first segment is not numeric is kept whole (every later segment joined back with `.`), less the dot ending a one-segment `q`; minor and micro stay 0 |
| Versions.ParseMinorThenQualifier | src/models/Version.ts:32-40 | after numeric major and minor, a qualifier text `q` whose first segment is not numeric is kept whole (every later segment joined back with `.`), less the dot ending a one-segment `q`; micro stays 0 |
| Versions.ParseNumbersThenQualifier | src/models/Version.ts:11-44 | after three numbers the rest is the qualifier; only the first `-` of the whole text turns into `.` |
| Versions.CompareParsed | src/models/Version.ts:59-88 | 0 exactly on equal fields; numbers lexicographically smaller give a negative result and larger a positive one; with equal numbers the result is -1, 0 or 1 |
| Versions.CompareOSGiVersions | src/models/Version.ts:59-63 | the identity quick test agrees with comparing the two objects' fields |
| Versions.CompareVersions | src/models/Version.ts:52-57 | the string-equality shortcut agrees with comparing the parses; 0 exactly when the parses are equal |
| Versions.CompareVersionsDesc | src/models/Version.ts:48-50 | the ascending comparison with the arguments swapped |
| Versions.ReleaseAfterQualified | src/models/Version.ts:81-86 | with equal numbers a release (empty qualifier) is greater than a qualified version, in both argument orders |
| Versions.QualifiersIgnoreCase | src/models/Version.ts:87 | two different non-empty qualifiers give -1 exactly when the lower-cased first is smaller, and 1 otherwise: never 0 |
| Versions.CaseTwinsBothGreater | src/models/Version.ts:87 | qualifiers that differ only in case each compare greater than the other |
| Versions.CompareAntisymmetric | src/models/Version.ts:59-88 | apart from case twins, swapping the arguments flips the sign and keeps 0 |
| Versions.CompareTransitive | src/models/Version.ts:59-88 | "compares at most 0" is transitive |
| Versions.CompareTotal | src/models/Version.ts:59-88 | apart from case twins every two versions are ordered one way or the other |
| Versions.VersionsTotal | src/models/Version.ts:52-57 | on strings without case twins the string comparator is total |
| Versions.VersionsTransitive | src/models/Version.ts:52-57 | the string comparator is transitive |
| Versions.VersionsTotalPreorder | src/models/Version.ts:48-57 | both string comparators are total preorders on lists without case twins |
| Versions.SortDescNewestFirst | src/models/Version.ts:48-50 | sorting with the descending comparator permutes the list and puts each version before every older one, when no two versions differ only by the case of their qualifier |
| Versions.TrailingZerosIgnored | src/models/Version.ts:52-88 | `a` equals `a.0`, and `a.b` equals `a.b.0` |
| VersionExamples.EqualityCases | test/suite/versions.test.ts:6-11 | `''` and `''`, `1` and `1`, `1.0` and `1`, `1.0` and `1.0.0` compare as 0 |
| VersionExamples.ShortQualifierCase | test/suite/versions.test.ts:13 | `1.0.ALPHA2` is greater than `1.0.0.ALPHA1` |
| VersionExamples.MajorOnlyQualifierCase | test/suite/versions.test.ts:14 | `1-BETA1` is greater than `1.0.0.ALPHA1` |
| VersionExamples.NumbersFirstCase | test/suite/versions.test.ts:15 | `6.0.0.ALPHA2` is smaller than `6.1.1.ALPHA1`: numbers decide first |
| VersionExamples.QualifierCases | test/suite/versions.test.ts:16-17 | the release `6.0.0` and `6.0.0.RC1` are each greater than `6.0.0.ALPHA1` |
| VersionExamples.CaseInsensitiveCase | test/suite/versions.test.ts:18 | `4.10.0-RC1` is greater than `4.10.0.alpha-1` |
| VersionExamples.SortCase | test/suite/versions.test.ts:20-23 | sorting `4.10.0`, `4.10.0-alpha-1`, `4.10.0-RC1` ascending gives `4.10.0-alpha-1`, `4.10.0-RC1`, `4.10.0` |
| VersionExamples.ParseFourTenDashAlpha | src/models/Version.ts:11 | `4.10.0-alpha-1` parses to 4, 10, 0 with qualifier `alpha-1`: only the first `-` is replaced |
| VersionExamples.ParseFourTenDotAlpha | src/models/Version.ts:11 | `4.10.0.alpha-1` parses to qualifier `alpha.1`: its first `-` is inside the qualifier |
| VersionExamples.CaseTwinsCase | src/models/Version.ts:87 | `1.0.0.a` and `1.0.0.A` each compare as 1 against the other |
| Directives.Directive.Prefix | src/JBangDirectives.ts:9-11 | the prefix is `//` followed by the name |
| Directives.MatchesWithSpace | src/JBangDirectives.ts:4-7 | matching with the trailing space implies matching without it |
| Directives.JavaMatchesLongerNames | src/JBangDirectives.ts:15-27 | every line that `JAVAC_OPTIONS`, `JAVA_OPTIONS` or `JAVAAGENT` matches is also matched by `JAVA` without the space |
| Directives.PrefixedLine | src/JBangDirectives.ts:4-7 | a line made of a prefix and any text matches without the space |
| Directives.QuarkusConfigPrefix | src/JBangDirectives.ts:36 | the `Q:CONFIG ` prefix is `//Q:CONFIG `, its name already ending in a space |
| Directives.FilesPrefix | src/JBangDirectives.ts:39 | `FILES_PREFIX` is `//FILES ` |
| Directives.HeaderFacts | src/JBangDirectives.ts:40-41 | the header's name starts with `///usr/bin/env jbang `, so its prefix starts with five slashes, and the header is not in the catalog |
| Directives.CatalogFacts | src/JBangDirectives.ts:43-65 | the catalog has 21 entries with pairwise distinct names, `JAVA` first, all allowed more than once |
| Directives.ReTriggerSet | src/JBangDirectives.ts:15-36 | exactly JAVA, JAVAC_OPTIONS, JAVA_OPTIONS, COMPILE_OPTIONS, RUNTIME_OPTIONS, NATIVE_OPTIONS, GROOVY, KOTLIN, SOURCES and FILES retrigger completion |
| JBangUtils.IsJBangDirective | src/JBangUtils.ts:13-20 | a line is a directive exactly when it starts with one of the known prefixes |
| JBangUtils.IsJBangFile | src/JBangUtils.ts:3-11 | a document is a JBang file exactly when one of its lines, split at `\r?\n` for a text, is a directive |
| JBangUtils.IsJBangFileOrderFree | src/JBangUtils.ts:3-11 | the verdict does not depend on the order of the lines |
| JBangUtils.EmptyDocument | src/JBangUtils.ts:3-11 | no lines, and the empty text, make no JBang file |
| JBangUtils.DirectiveShape | src/JBangUtils.ts:13 | a directive line has at least six characters, starts with `//` and has no space third |
| JBangUtils.NotDirectives | src/JBangUtils.ts:13-20 | a line starting with whitespace or with `// ` is no directive |
| JBangUtils.SpaceRules | src/JBangUtils.ts:13 | `//MANIFESTX` is a directive, while a bare `//DEPS` is not |
| JBangUtils.HeaderIsDirective | src/JBangUtils.ts:13 | the script header line is a directive |
| JBangUtils.UnlistedDirectives | src/JBangUtils.ts:13 | lines starting `//MAIN`, `//MODULE`, `//PREVIEW` or `//Q:CONFIG` are no directives for this test, although the catalog holds them |
| EditorListener.OrElse | src/EditorListener.ts:27 | a string `\|\|` a boolean is the string when it is non-empty, otherwise the boolean printed |
| EditorListener.AsWrittenCollapses | src/EditorListener.ts:27 | the line test as written holds exactly for lines starting `//DEPS` |
| EditorListener.FirstMarkedLine | src/EditorListener.ts:23-33 | the loop stops at the first line that passes the test, or runs off the end when none does |
| EditorListener.Listener.SetJBangFileContext | src/EditorListener.ts:37-39 | the context key receives the value |
| EditorListener.Listener.Check | src/EditorListener.ts:14-35 | the context key becomes true exactly for a non-empty Java document with a marked line; no editor, another language or empty content gives false |
| EditorListener.Listener.CheckJBangFileContext | src/EditorListener.ts:14-35 | as written: the context key is true exactly when some line starts with `//DEPS` |
| EditorListener.Listener.CheckJBangFileContextCorrected | src/EditorListener.ts:14-35 | with the intended test: some line starts with `//DEPS`, `//JAVA` or `///usr/bin/env jbang` |
| EditorListener.CorrectedExtendsAsWritten | src/EditorListener.ts:27 | every document the code as written notices is noticed by the intended test too |
| EditorListener.DetectsOneLine | src/EditorListener.ts:16-33 | a one-line document is judged by its language and its only line |
| EditorListener.JavaOnlyScriptMissed | src/EditorListener.ts:27 | a Java script whose only marker is `//JAVA 17` is missed as written and noticed by the intended test |
| Dependencies.GetDependency | src/models/Dependency.ts:15-34 | undefined exactly when the text holds no `:`; otherwise group and artifact are set, the version exactly when there are three parts or more, and the classifier exactly when four or more |
| Dependencies.GetDependencyToString | src/models/Dependency.ts:11-34 | a text of exactly four `:`-parts parses and prints back unchanged |
| Dependencies.ToString | src/models/Dependency.ts:11-13 | when no printed field holds a `:`, splitting the printed text at `:` gives back exactly the four printed fields (missing ones as `undefined`) |
| Dependencies.ToStringGetDependency | src/models/Dependency.ts:11-34 | printing four `:`-free fields and parsing the result gives the fields back |
| Dependencies.GetDependencyTwoParts | src/models/Dependency.ts:11-34 | `g:a` has no version or classifier and prints as `g:a:undefined:undefined` |
| Dependencies.GetDependencyIgnoresExtra | src/models/Dependency.ts:16-29 | parts after the fourth are ignored |
| Dependencies.SplitGroupId | src/models/Dependency.ts:60-62 | every `.` is replaced: the result has no `.` and the group's length |
| Dependencies.GroupDirectories | src/models/Dependency.ts:60-62 | the directories of the result are the group's dotted segments |
| Dependencies.GetLocalFile | src/models/Dependency.ts:39-44 | defined exactly when group, artifact and version are; then the POM path below `<home>/.m2/repository/` |
| Dependencies.GetRemoteUrl | src/models/Dependency.ts:46-51 | defined exactly when group, artifact and version are; then the same POM path below Maven Central |
| Dependencies.GetRemoteMetadata | src/models/Dependency.ts:53-58 | defined exactly when group and artifact are; the URL is Maven Central's root, `/`, then the metadata path: the group's `.`-separated parts as directories, the artifact and `maven-metadata.xml` |
| Dependencies.MetadataPathSegments | src/models/Dependency.ts:53-58 | for a group and artifact without `/`, the metadata path splits at `/` into the group's `.`-separated parts, the artifact and `maven-metadata.xml` |
| Dependencies.PomPathSegments | src/models/Dependency.ts:43-50 | the POM path's directories are the group's dotted segments, the artifact and the version, then `<artifact>-<version>.pom` |
| Dependencies.RootedAtUnique | src/models/Dependency.ts:39-51 | the local and the remote path differ only in the repository root |
| CodeLensProvider.KeywordDeclares | src/CodeLensProvider.ts:5 | a keyword followed by a blank declares a type whatever precedes it, so `subclass x` counts |
| CodeLensProvider.NoBlankNoType | src/CodeLensProvider.ts:5 | a line without a blank declares no type |
| CodeLensProvider.DirectiveIsComment | src/CodeLensProvider.ts:6 | every directive line is also a comment line |
| CodeLensProvider.Kinds | src/CodeLensProvider.ts:29-30 | one set of line tests per line, in order |
| CodeLensProvider.ScanDocument | src/CodeLensProvider.ts:25-48 | the loop leaves the anchors of the line-by-line scan that stops at `main` |
| CodeLensProvider.ScanOneMore | src/CodeLensProvider.ts:29-48 | scanning one more line before `main` is found takes one step |
| CodeLensProvider.Turn | src/CodeLensProvider.ts:30-37 | the loop body records the first directive line and skips it, and skips comment lines |
| CodeLensProvider.CodeTurn | src/CodeLensProvider.ts:38-47 | on other lines the first type line is recorded, and a `main` line ends the scan |
| CodeLensProvider.StopsAtMain | src/CodeLensProvider.ts:43-47 | once `main` is found, the lines after it change nothing |
| CodeLensProvider.ScanKinds | src/CodeLensProvider.ts:29-48 | every anchor the scan records lies on a line already scanned |
| CodeLensProvider.DirectiveIsFirst | src/CodeLensProvider.ts:31-34 | the directive anchor is the full range of the first directive line |
| CodeLensProvider.NoDirectiveYet | src/CodeLensProvider.ts:31-34 | while no directive and no `main` was found, no scanned line was a directive |
| CodeLensProvider.TypeLine | src/CodeLensProvider.ts:35-42 | the type anchor is the full range of a type-declaring line that is no comment and not the first directive line, and no earlier such line declares a type |
| CodeLensProvider.TypeLineFound | src/CodeLensProvider.ts:29-48 | every type-declaring line that is no comment and not the first directive line, up to the `main` line, has the type anchor at or before it; so the anchor is missing only when there is no such line |
| CodeLensProvider.MainLine | src/CodeLensProvider.ts:43-47 | the `main` anchor starts at the first `public static void main` of a non-comment line other than the first directive line, no earlier such line holds one, and the type line comes no later |
| CodeLensProvider.NoMainYet | src/CodeLensProvider.ts:29-48 | while no `main` anchor is found, no scanned non-comment line other than the first directive line holds `public static void main` |
| CodeLensProvider.TypeLineIsNoDirective | src/CodeLensProvider.ts:31-42 | the type anchor never lies on a directive line |
| CodeLensProvider.PlaceLenses | src/CodeLensProvider.ts:49-82 | the pushes give the lenses chosen for the scan |
| CodeLensProvider.ProvideCodeLenses | src/CodeLensProvider.ts:19-84 | no lenses unless the language is `jbang` or the text is a JBang file; otherwise the lenses for the scan of its `\r?\n` lines |
| CodeLensProvider.LensesFor | src/CodeLensProvider.ts:49-83 | no lenses exactly when the scan found no anchor, and every lens sits on one of the anchors found |
| CodeLensProvider.SynchronizeOnlyAtDirective | src/CodeLensProvider.ts:49-56 | a synchronize lens lies only at the directive line, only for `java` and `jbang`, and comes first |
| CodeLensProvider.DirectiveOnly | src/CodeLensProvider.ts:57-81 | with a directive but no type or `main`, Java and JBang get only the synchronize lens; other languages get the lone run lens |
| CodeLensProvider.PairsInOrder | src/CodeLensProvider.ts:71-78 | run and debug at the type, then run and debug at `main` |
| TextHelper.EmptyIsNoDelimiter | src/completion/TextHelper.ts:4-8 | the empty string, which `charAt` gives outside the line, is no delimiter |
| TextHelper.LastAtOrBefore | src/completion/TextHelper.ts:19-23 | the last index at or before the start whose character passes the test, or -1, with no passing index after it |
| TextHelper.FirstFrom | src/completion/TextHelper.ts:31-35 | the first index from the start whose character passes the test, or the line length, with no passing index before it |
| TextHelper.FindStartPosition | src/completion/TextHelper.ts:10-25 | just after the last delimiter at or before the cursor, or the directive's length when there is none; the test defaults to `isDelimiter` |
| TextHelper.FindEndPosition | src/completion/TextHelper.ts:27-37 | the first delimiter at or after the cursor, or the end of the line |
| TextHelper.FindVersionPosition | src/completion/TextHelper.ts:39-50 | just after the last `:` at or before the cursor, or the cursor itself |
| TextHelper.FindSegmentPosition | src/completion/TextHelper.ts:52-63 | just after the last `/` at or before the cursor, or the cursor itself |
| TextHelper.ScanBackAfter | src/completion/TextHelper.ts:43-49 | the backward scan stops just after the last character passing the test |
| TextHelper.StartPosition | src/completion/TextHelper.ts:10-25 | the start keeps the cursor's line, follows a delimiter with none between it and the cursor, or is the directive's end when no delimiter precedes the cursor |
| TextHelper.EndPosition | src/completion/TextHelper.ts:27-37 | the end keeps the line and is a comma or whitespace at or after the cursor, or the line's end, with no delimiter in between |
| TextHelper.AfterLast | src/completion/TextHelper.ts:39-63 | the position keeps the line and lies just after a character passing the test with none between it and the cursor, or is the cursor itself |
| TextHelper.AfterLastColonMeaning | src/completion/TextHelper.ts:39-50 | the version start keeps the line and follows a `:` with no `:` between it and the cursor, or is the cursor |
| TextHelper.GetTextAt | src/completion/TextHelper.ts:65-90 | undefined exactly when the index is outside the line or on a delimiter; otherwise the maximal delimiter-free slice around the index |
| TextHelper.WordAroundUnique | src/completion/TextHelper.ts:73-89 | the maximal slice around an index is unique, so the word is determined |
| CompletionHelper.SameDelimiter | src/completion/CompletionHelper.ts:5-9 | the older delimiter test agrees with the one in `TextHelper` on every string |
| CompletionHelper.FindStartPosition | src/completion/CompletionHelper.ts:11-18 | the same position as `TextHelper.findStartPosition` with its default test |
| CompletionHelper.FindEndPosition | src/completion/CompletionHelper.ts:20-27 | the same position as `TextHelper.findEndPosition` |
| CompletionHelper.FindVersionPosition | src/completion/CompletionHelper.ts:29-37 | the same position as `TextHelper.findVersionPosition` |
| CompletionHelper.FindSegmentPosition | src/completion/CompletionHelper.ts:39-47 | the same position as `TextHelper.findSegmentPosition` |
| CompletionProvider.CurrentWord | src/CompletionProvider.ts:162-175 | the word starts where `findStartPosition` puts it for `//DEPS `: after a delimiter, or at 7 |
| CompletionProvider.FindCurrentWord | src/CompletionProvider.ts:162-175 | the loop gives the word and start of the pure definition |
| CompletionProvider.FallbackUnreachable | src/CompletionProvider.ts:163-172 | on a `//DEPS ` line with the cursor at column 6 or later the space at 6 is found, so the word is the untrimmed slice from after a delimiter |
| CompletionProvider.CursorOnDelimiter | src/CompletionProvider.ts:165-171 | with the cursor on a delimiter, `substring` swaps its bounds and the word is that delimiter |
| CompletionProvider.FindEndPosition | src/CompletionProvider.ts:177-185 | the same position as `TextHelper.findEndPosition` |
| CompletionProvider.FindVersionPosition | src/CompletionProvider.ts:187-195 | the same position as `TextHelper.findVersionPosition` |
| CompletionProvider.ToCompletionItem | src/CompletionProvider.ts:96-107 | a module item labelled `g:a:` followed by the chosen version, exactly that long, inserted as its label, sorted by the decimal index |
| CompletionProvider.ToVersionCompletionItem | src/CompletionProvider.ts:108-117 | a value item labelled with the version, sorted by the decimal age in milliseconds at the given time |
| CompletionProvider.AgeSortsAsText | src/CompletionProvider.ts:110 | the age sorts as text: 10 ms sorts before 9 ms |
| CompletionProvider.ToCompletionList | src/CompletionProvider.ts:149-160 | one item per document, in order; incomplete exactly when `numFound` (0 when undefined) exceeds the item count |
| CompletionProvider.ProvideCompletionItems | src/CompletionProvider.ts:12-67 | `[]` unless the text is a JBang file, the line starts with `//DEPS ` and the search has documents; otherwise artifact items for one or two parts and version items after the last `:` for three or four |
| CompletionProvider.DepsCompletions | src/CompletionProvider.ts:22-66 | a list exactly when the search for the typed parts has documents |
| Search.QueryFor | src/completion/RemoteDependencyCompletion.ts:59-70 | a search is chosen exactly for one to four parts |
| Search.Lookup | src/completion/RemoteDependencyCompletion.ts:54-84 | no answer when no search is chosen; otherwise the service's answer to the chosen search |
| Search.DispatchByPartCount | src/completion/RemoteDependencyCompletion.ts:59-70 | one part searches all names, two search group and artifact, three or four search versions, five or more search nothing |
| Search.ArtifactLabel | src/completion/RemoteDependencyCompletion.ts:113-114 | the label is `g:a:` followed by `v`, or `latestVersion` when `v` is empty, and exactly as long as those parts |
| Search.ArtifactLabelParses | src/completion/RemoteDependencyCompletion.ts:112-125 | the label parses back to the document's group, artifact and chosen version |
| Search.CompareArtifactVersions | src/completion/RemoteDependencyCompletion.ts:187-189 | compares the second document's version with the first's: newest first |
| Search.SortVersionDocs | src/completion/RemoteDependencyCompletion.ts:167-170 | sorting the documents permutes them |
| Search.SortVersionResults | src/completion/RemoteDependencyCompletion.ts:156-172 | the in-place sort leaves the response with its documents sorted |
| Search.Answer | src/completion/RemoteDependencyCompletion.ts:138-172 | every search passes the service's answer on; a version search permutes its documents, keeping `numFound` |
| Search.RunSearch | src/completion/RemoteDependencyCompletion.ts:138-172 | the search method returns that answer |
| Search.SortedLookup | src/completion/RemoteDependencyCompletion.ts:54-70 | no answer when no search is chosen; otherwise the chosen search's answer |
| Search.AnswerNewestFirst | src/completion/RemoteDependencyCompletion.ts:167-170 | the documents of a version answer are newest first, when no two versions differ only by the case of their qualifier |
| Search.SortVersionDocsNewestFirst | src/completion/RemoteDependencyCompletion.ts:167-170 | after sorting, no document comes after an older one, when no two versions differ only by the case of their qualifier |
| Search.DocsPreorder | src/completion/RemoteDependencyCompletion.ts:187-189 | the document comparator is a total preorder on documents without case twins |
| Search.PaddedSortText | src/completion/RemoteDependencyCompletion.ts:128 | the index's digits, left-padded with `0` to exactly ten characters when shorter, and unchanged otherwise |
| Search.PaddedSortTextOrder | src/completion/RemoteDependencyCompletion.ts:128 | below ten billion, padded sort texts order as text exactly as their indices |
| RemoteDependencyCompletion.AppliesIff | src/completion/RemoteDependencyCompletion.ts:37-39 | the completer applies exactly to lines starting with `//DEPS ` |
| RemoteDependencyCompletion.SaveCommand | src/completion/RemoteDependencyCompletion.ts:90-92 | a save command exactly when saving on select is enabled, titled `Save`, with the document's URI |
| RemoteDependencyCompletion.ToCompletionItem | src/completion/RemoteDependencyCompletion.ts:112-125 | a module item labelled `g:a:` followed by the chosen version, exactly that long, inserted as its label, sorted by the decimal index, with the command and a parsed dependency |
| RemoteDependencyCompletion.ItemDependency | src/completion/RemoteDependencyCompletion.ts:122 | the item's dependency is the document's group, artifact and chosen version |
| RemoteDependencyCompletion.ToVersionCompletionItem | src/completion/RemoteDependencyCompletion.ts:126-136 | a value item labelled with the version, sorted by the index padded to ten digits, with the command |
| RemoteDependencyCompletion.VersionItemsKeepOrder | src/completion/RemoteDependencyCompletion.ts:128 | version items sort as text in index order |
| RemoteDependencyCompletion.ToCompletionList | src/completion/RemoteDependencyCompletion.ts:174-185 | one item per document, in order, each with the command; incomplete exactly when `numFound` exceeds the item count |
| RemoteDependencyCompletion.ProvideCompletionItems | src/completion/RemoteDependencyCompletion.ts:41-108 | the empty list when the line does not apply, the typed text is empty or starts with `.`, or the answer has no documents; otherwise artifact items over the word for one or two parts, version items after the last `:` for three or four |
| RemoteDependencyCompletion.Listed | src/completion/RemoteDependencyCompletion.ts:88-105 | the list for an answer with documents, by part count |
| DependencyCompletion.SameLinesAsRemote | src/completion/DependencyCompletion.ts:32-34 | this completer applies to the same `//DEPS ` lines as the remote one |
| DependencyCompletion.ToVersionCompletionItem | src/completion/DependencyCompletion.ts:104-113 | a value item labelled with the version, sorted by the index padded to ten digits |
| DependencyCompletion.VersionItemsKeepOrder | src/completion/DependencyCompletion.ts:106 | version items sort as text in index order |
| DependencyCompletion.EmptyTextSearchesAll | src/completion/DependencyCompletion.ts:42-50 | with nothing typed the completer still searches all names with the empty text |
| DependencyCompletion.ProvideCompletionItems | src/completion/DependencyCompletion.ts:36-88 | `[]` unless the line starts with `//DEPS ` and the answer has documents; otherwise the same item sets by part count as the remote completer |
| DependencyCompletion.Listed | src/completion/DependencyCompletion.ts:72-86 | the list for an answer with documents, by part count |
| DirectivesCompletion.AppliesOnDirectiveLines | src/completion/DirectivesCompletion.ts:47-49 | completion applies on every line that holds a directive |
| DirectivesCompletion.GetCompletion | src/completion/DirectivesCompletion.ts:178-192 | label the prefix, snippet `prefix ${0}`, detail the description; the given command, else the retrigger command exactly for retriggering directives |
| DirectivesCompletion.MatchFrom | src/completion/DirectivesCompletion.ts:167-174 | the first looked-for directive at or after an index that matches the line, spaced except for the Quarkus dependency |
| DirectivesCompletion.DirectiveScanner.constructor | src/completion/DirectivesCompletion.ts:134-135 | a new scanner has found nothing |
| DirectivesCompletion.DirectiveScanner.Scan | src/completion/DirectivesCompletion.ts:141-176 | the nested loops append exactly the directives of the pure line-by-line scan over the `\r?\n` lines |
| DirectivesCompletion.FirstMatch | src/completion/DirectivesCompletion.ts:167-174 | the inner loop stops at the first looked-for directive that matches the line |
| DirectivesCompletion.ScanRecordsOnce | src/completion/DirectivesCompletion.ts:163-175 | each directive is recorded at most as often as it is looked for, so at most once |
| DirectivesCompletion.ScanLines | src/completion/DirectivesCompletion.ts:141-175 | each line records at most one directive, and only looked-for directives are recorded |
| DirectivesCompletion.FoundIff | src/completion/DirectivesCompletion.ts:163-175 | when no line can match two looked-for directives, a directive is found exactly when it is looked for and some line matches it |
| DirectivesCompletion.CheckedExclusive | src/completion/DirectivesCompletion.ts:142-160 | no line matches two of the looked-for directives |
| DirectivesCompletion.ScanFinds | src/completion/DirectivesCompletion.ts:137-176 | a looked-for directive is found exactly when some line of the document holds it |
| DirectivesCompletion.NeverFound | src/completion/DirectivesCompletion.ts:142-160 | DEPS, SOURCES, FILES and REPOS are never looked for, so never found |
| DirectivesCompletion.CompletionsFor | src/completion/DirectivesCompletion.ts:70-129 | one completion per offered directive, in order, each over the same range |
| DirectivesCompletion.Offered | src/completion/DirectivesCompletion.ts:70-129 | at most one directive per entry considered, and every directive offered comes from an entry whose rule holds |
| DirectivesCompletion.OfferedIff | src/completion/DirectivesCompletion.ts:70-129 | a directive is offered exactly when an entry names it and that entry's rule holds |
| DirectivesCompletion.OfferEntriesDistinct | src/completion/DirectivesCompletion.ts:70-129 | no directive is considered twice |
| DirectivesCompletion.OfferedExactly | src/completion/DirectivesCompletion.ts:70-129 | every directive considered is offered exactly when its own rule holds |
| DirectivesCompletion.RepeatableAlwaysOffered | src/completion/DirectivesCompletion.ts:73-98 | DEPS, SOURCES, FILES, REPOS and DESCRIPTION are always offered |
| DirectivesCompletion.OptionPairsOffered | src/completion/DirectivesCompletion.ts:103-114 | JAVAC_OPTIONS and COMPILE_OPTIONS are each offered exactly when neither was found; JAVA_OPTIONS and RUNTIME_OPTIONS likewise |
| DirectivesCompletion.LanguageAndQuarkusOffered | src/completion/DirectivesCompletion.ts:75-80 | GROOVY and KOTLIN only for their language and when not found; the Quarkus configuration exactly when a Quarkus dependency was found |
| DirectivesCompletion.SingleUseOffered | src/completion/DirectivesCompletion.ts:82-126 | a single-use directive is offered exactly when it was not found |
| DirectivesCompletion.OffersFollowDocument | src/completion/DirectivesCompletion.ts:67-126 | after scanning, a single-use directive is offered exactly when no line of the document holds it |
| DirectivesCompletion.SingleUseChecked | src/completion/DirectivesCompletion.ts:142-160 | the scanner looks for every single-use directive |
| DirectivesCompletion.HeaderItem | src/completion/DirectivesCompletion.ts:60-65 | the header item: label and detail of `HEADER`, over the range |
| DirectivesCompletion.PushIf | src/completion/DirectivesCompletion.ts:70-129 | one conditional push extends the items by the next entry's completion exactly when its rule holds |
| DirectivesCompletion.ProvideCompletionItems | src/completion/DirectivesCompletion.ts:51-131 | the header item on line 0 only, then the completions of the offered directives in source order, over the range from column 0 to the cursor; the list is complete |
| JavaOptionsCompletion.Applies | src/completion/JavaOptionsCompletion.ts:32-37 | applies exactly when a served directive and a space start the line and the cursor is at or past that directive's prefix |
| JavaOptionsCompletion.ChosenDirective | src/completion/JavaOptionsCompletion.ts:48-51 | none exactly when no served directive starts the line without the space; otherwise a served directive that does, and no earlier one in the list does |
| JavaOptionsCompletion.AppliesChooses | src/completion/JavaOptionsCompletion.ts:32-51 | whenever the completer applies, a directive is chosen |
| JavaOptionsCompletion.OptionLinesChooseJava | src/completion/JavaOptionsCompletion.ts:22-29 | `//JAVAC_OPTIONS` and `//JAVA_OPTIONS` lines are served as `JAVA` lines, since `JAVA` comes first |
| JavaOptionsCompletion.OptionDirectivesNeverChosen | src/completion/JavaOptionsCompletion.ts:48 | as written, no line is ever served as `JAVAC_OPTIONS` or `JAVA_OPTIONS` |
| JavaOptionsCompletion.SpacedChosenDirective | src/completion/JavaOptionsCompletion.ts:48-51 | with the space `applies` demands: none exactly when no served directive and a space start the line; otherwise one that does, and no earlier one in the list does |
| JavaOptionsCompletion.SpacedChoosesOwnDirective | src/completion/JavaOptionsCompletion.ts:48 | with the space, every served directive is chosen for its own lines |
| JavaOptionsCompletion.SpacedChoosesOptionDirectives | src/completion/JavaOptionsCompletion.ts:48 | with the space, `//JAVAC_OPTIONS ` and `//JAVA_OPTIONS ` lines are served as themselves |
| JavaOptionsCompletion.AppliesChoosesSpaced | src/completion/JavaOptionsCompletion.ts:32-51 | whenever the completer applies, the spaced choice finds a directive |
| JavaOptionsCompletion.GetJavaVersions | src/completion/JavaOptionsCompletion.ts:165-168 | the snippet choice `${1|21,17,11,8|}` |
| JavaOptionsCompletion.JavaVersionChoices | src/completion/JavaOptionsCompletion.ts:30 | the snippet's choices read back as 21, 17, 11 and 8, in order |
| JavaOptionsCompletion.GetCompletion | src/completion/JavaOptionsCompletion.ts:150-163 | a text item with the label, detail and range, inserting the given snippet, with no command |
| JavaOptionsCompletion.DefaultSnippet | src/completion/JavaOptionsCompletion.ts:157 | without a snippet the item inserts its label, a space and `${0}` |
| JavaOptionsCompletion.VersionItem | src/completion/JavaOptionsCompletion.ts:67-70 | a value item labelled with the version's digits, sorted by its index |
| JavaOptionsCompletion.JavaVersionLabels | src/completion/JavaOptionsCompletion.ts:66-71 | the version items are labelled 21, 17, 11 and 8 and sorted `0` to `3` |
| JavaOptionsCompletion.ShownOptionsIff | src/completion/JavaOptionsCompletion.ts:74-145 | an option is listed exactly when it is in scope for the directive and not withheld by the line |
| JavaOptionsCompletion.ShownOptionsIncreasing | src/completion/JavaOptionsCompletion.ts:74-145 | the options are listed in source order, each once |
| JavaOptionsCompletion.OffersByLabel | src/completion/JavaOptionsCompletion.ts:74-145 | an option is offered by label exactly when the option itself is offered |
| JavaOptionsCompletion.NativeImageOffers | src/completion/JavaOptionsCompletion.ts:74-87 | after `NATIVE_OPTIONS`: `--enable-https` while the line lacks it, `--enable-http` while the line lacks `--enable-http ` with its space, nothing else |
| JavaOptionsCompletion.PreviewOffers | src/completion/JavaOptionsCompletion.ts:88-97 | after any other directive: `--enable-preview` while the line lacks it, and no native-image option |
| JavaOptionsCompletion.CompilerOffers | src/completion/JavaOptionsCompletion.ts:98-120 | after `JAVAC_OPTIONS` or `COMPILE_OPTIONS`: `-deprecation` and `-source` each while the line lacks it |
| JavaOptionsCompletion.ReleaseAndParametersOffers | src/completion/JavaOptionsCompletion.ts:121-144 | `--release` only while the line lacks both `-source` and `--release`; `-parameters` while the line lacks it |
| JavaOptionsCompletion.RuntimeOffers | src/completion/JavaOptionsCompletion.ts:88-98 | after `RUNTIME_OPTIONS` or `JAVA_OPTIONS` only `--enable-preview` is offered |
| JavaOptionsCompletion.JavaRange | src/completion/JavaOptionsCompletion.ts:62-65 | the versions replace from column 7, just after `//JAVA `, to the end of the line |
| JavaOptionsCompletion.PushOption | src/completion/JavaOptionsCompletion.ts:76-143 | one conditional push adds the option's item exactly when it is offered |
| JavaOptionsCompletion.Provide | src/completion/JavaOptionsCompletion.ts:49-146 | no directive gives nothing; `JAVA` gives the four version items; any other gives its offered options over the word range; the list is complete |
| JavaOptionsCompletion.JavaVersionItems | src/completion/JavaOptionsCompletion.ts:66-71 | one value item per Java version, in order |
| JavaOptionsCompletion.NativeImageItems | src/completion/JavaOptionsCompletion.ts:74-87 | the native-image pushes give the offered options |
| JavaOptionsCompletion.PreviewItems | src/completion/JavaOptionsCompletion.ts:89-97 | the preview push gives the offered options so far |
| JavaOptionsCompletion.CompilerItems | src/completion/JavaOptionsCompletion.ts:98-145 | the compiler pushes complete the offered options |
| JavaOptionsCompletion.SourceAndReleaseItems | src/completion/JavaOptionsCompletion.ts:110-133 | the `-source` push and the nested `--release` push |
| JavaOptionsCompletion.ParametersItems | src/completion/JavaOptionsCompletion.ts:134-144 | the `-parameters` push |
| JavaOptionsCompletion.ProvideCompletionItems | src/completion/JavaOptionsCompletion.ts:39-147 | as written: the empty list without a directive; a line served as `JAVA` (such as `//JAVA 17`, and also every `//JAVAC_OPTIONS` and `//JAVA_OPTIONS` line) gets a complete list of the four version items 21, 17, 11, 8, sorted `0` to `3`, replacing from column 7 to the line end; other directives get their offered options |
| JavaOptionsCompletion.ProvideCompletionItemsSpaced | src/completion/JavaOptionsCompletion.ts:39-147 | with the spaced choice: the empty list without a directive; a `//JAVA ` line gets a complete list of the four version items 21, 17, 11, 8 over column 7 to the line end; `//JAVAC_OPTIONS ` and `//JAVA_OPTIONS ` lines get their own options |
| GroovyVersionCompletion.ListedIff | src/completion/GroovyVersionCompletion.ts:66-71 | a version is listed exactly when it is a token of some listing line that starts with a space |
| GroovyVersionCompletion.ListedSomewhere | src/completion/GroovyVersionCompletion.ts:66-71 | every listed version comes from a listing line that starts with a space |
| GroovyVersionCompletion.ListedFrom | src/completion/GroovyVersionCompletion.ts:66-71 | every token of such a line is listed |
| GroovyVersionCompletion.ListedHaveNoSpace | src/completion/GroovyVersionCompletion.ts:69 | no listed version holds a space |
| GroovyVersionCompletion.TokensHaveNoSpace | src/completion/GroovyVersionCompletion.ts:69 | no token of `line.split(" ")` holds a space |
| GroovyVersionCompletion.EmptyTokenListed | src/completion/GroovyVersionCompletion.ts:68-69 | as written, any listing line puts the empty string among the versions |
| GroovyVersionCompletion.LeadingSeparator | src/completion/GroovyVersionCompletion.ts:68-69 | a line that starts with the separator splits into the empty string first |
| GroovyVersionCompletion.Filled | src/completion/GroovyVersionCompletion.ts:66-71 | the corrected listing is no longer than the listing |
| GroovyVersionCompletion.FilledIff | src/completion/GroovyVersionCompletion.ts:66-71 | the corrected listing holds exactly the non-empty listed tokens |
| GroovyVersionCompletion.SearchVersions | src/completion/GroovyVersionCompletion.ts:56-74 | the tokens of the listing lines that start with a space, sorted newest first with `compareVersionsDesc` |
| GroovyVersionCompletion.SearchVersionsFilled | src/completion/GroovyVersionCompletion.ts:56-74 | corrected: the non-empty listed tokens, sorted newest first; a version is offered exactly when it is a non-empty listed token |
| GroovyVersionCompletion.EmptyListing | src/completion/GroovyVersionCompletion.ts:64 | an empty response lists nothing |
| GroovyVersionCompletion.ProvideCompletionItems | src/completion/GroovyVersionCompletion.ts:27-53 | off a `//GROOVY ` line the empty list and the cache untouched; a stale cache is refilled with the sorted listing and stamped with the time; a failed fetch gives no list; otherwise the cached versions over the range from the prefix to the word's end |
| KotlinVersionCompletion.TagVersion | src/completion/KotlinVersionCompletion.ts:51 | a tag without `v` is its own version; otherwise exactly one character is dropped |
| KotlinVersionCompletion.LeadingVDropped | src/completion/KotlinVersionCompletion.ts:51 | a tag `v<rest>` names the version `<rest>`, even when the rest holds a `v` |
| KotlinVersionCompletion.FirstVDropped | src/completion/KotlinVersionCompletion.ts:51 | only the first `v` is dropped: what comes before and after it is kept |
| KotlinVersionCompletion.TagVersions | src/completion/KotlinVersionCompletion.ts:50-53 | one version per release, in release order |
| KotlinVersionCompletion.SearchVersions | src/completion/KotlinVersionCompletion.ts:45-57 | no data gives no versions; otherwise the release versions sorted with `compareVersionsDesc` |
| KotlinVersionCompletion.ProvideCompletionItems | src/completion/KotlinVersionCompletion.ts:24-41 | off a `//KOTLIN ` line the empty list; a stale cache is refilled and stamped, empty when the response has no data; a failed fetch gives no list; otherwise the cached versions over the word range |
| VersionCache.FreshForAnHour | src/completion/GroovyVersionCompletion.ts:89-91 | once stamped, the versions stay fresh until exactly one hour after the stamp |
| VersionCache.Cache.constructor | src/completion/GroovyVersionCompletion.ts:19-20 | no versions and no update at load time |
| VersionCache.Cache.Store | src/completion/GroovyVersionCompletion.ts:38-41 | the fetched versions and the time are kept, and a stamp at a nonzero time needs no refresh at once |
| VersionCache.SortVersionsDesc | src/completion/GroovyVersionCompletion.ts:73 | the sort done in place on an array agrees with the sort function |
| VersionCache.SortedNewestFirst | src/completion/GroovyVersionCompletion.ts:73 | the sorted versions are a permutation of the fetched ones, newest first, when no two differ only by the case of their qualifier |
| VersionCache.ShortSortText | src/completion/GroovyVersionCompletion.ts:82 | the index's digits, left-padded with `0` to exactly four characters when shorter, and unchanged otherwise |
| VersionCache.VersionItem | src/completion/GroovyVersionCompletion.ts:78-84 | a value item whose label and insert text are the version, over the range, sorted by its padded index |
| VersionCache.ToCompletionList | src/completion/GroovyVersionCompletion.ts:76-87 | one item per version, in order, in a complete list; no versions give the empty list |
| VersionCache.ItemsKeepOrder | src/completion/GroovyVersionCompletion.ts:82 | up to ten thousand versions, the sort texts order the items as the list does |
| VersionCache.OrderLostPastTenThousand | src/completion/GroovyVersionCompletion.ts:82 | past ten thousand versions, item 10000 sorts before item 9999 |
| VersionCache.SortTextsCross | src/completion/GroovyVersionCompletion.ts:82 | the sort text of 10000 is below that of 9999 |
| VersionCache.LongEnough | src/completion/GroovyVersionCompletion.ts:82 | indexes from 1000 on print with at least four digits and need no padding |
| AddMissingDependencyWizard.SearchName | src/wizards/JBangAddMissingDependencyWizard.ts:67-70 | a star import loses exactly its trailing `.*`; any other name is searched as it is |
| AddMissingDependencyWizard.QueryFor | src/wizards/JBangAddMissingDependencyWizard.ts:66-72 | the query searches the name with `fc` exactly when it holds a `.`, with `c` otherwise |
| AddMissingDependencyWizard.StarImportSearchesPackage | src/wizards/JBangAddMissingDependencyWizard.ts:67-71 | `p.*` searches the package `p`, fully qualified once `p` holds a `.` |
| AddMissingDependencyWizard.CompareArtifactVersions | src/wizards/JBangAddMissingDependencyWizard.ts:133-143 | groups first, then artifacts, each as text; for the same group and artifact the newer version comes first |
| AddMissingDependencyWizard.RankDocs | src/wizards/JBangAddMissingDependencyWizard.ts:37 | the sort done in place on an array agrees with the sort function |
| AddMissingDependencyWizard.KeepFirstOfEachGA | src/wizards/JBangAddMissingDependencyWizard.ts:38-47 | the loop pushes the id of exactly the documents whose `g:a` differs from the one before |
| AddMissingDependencyWizard.Heads | src/wizards/JBangAddMissingDependencyWizard.ts:38-47 | no more documents are kept than were looked at |
| AddMissingDependencyWizard.Ids | src/wizards/JBangAddMissingDependencyWizard.ts:45 | the id of every document, in order |
| AddMissingDependencyWizard.HeadsIff | src/wizards/JBangAddMissingDependencyWizard.ts:40-47 | a document is kept exactly when it starts a run of equal `g:a` |
| AddMissingDependencyWizard.HeadsDistinct | src/wizards/JBangAddMissingDependencyWizard.ts:40-47 | in a list grouped by `g:a`, the kept documents have pairwise different `g:a` |
| AddMissingDependencyWizard.SortedGrouped | src/wizards/JBangAddMissingDependencyWizard.ts:37 | once sorted, documents with the same `g:a` form one run |
| AddMissingDependencyWizard.HeadIsNewest | src/wizards/JBangAddMissingDependencyWizard.ts:37-47 | in the sorted list a run's first document has the newest version of its `g:a` |
| AddMissingDependencyWizard.DocsPreorder | src/wizards/JBangAddMissingDependencyWizard.ts:133-143 | the comparator is a total preorder on documents whose versions of one artifact do not differ only in qualifier case |
| AddMissingDependencyWizard.Kept | src/wizards/JBangAddMissingDependencyWizard.ts:37-47 | every kept document is one of the search results |
| AddMissingDependencyWizard.CandidatesFor | src/wizards/JBangAddMissingDependencyWizard.ts:30-48 | undefined exactly when the search was cancelled, no candidates when nothing was found, and otherwise only ids of returned documents |
| AddMissingDependencyWizard.KeptOncePerGA | src/wizards/JBangAddMissingDependencyWizard.ts:37-47 | every group and artifact found is offered once: some kept document has it and no two kept documents share it |
| AddMissingDependencyWizard.KeptNewest | src/wizards/JBangAddMissingDependencyWizard.ts:37-47 | every offered document carries the newest version found for its group and artifact, for groups without `:` and versions of one artifact without case twins |
| AddMissingDependencyWizard.SearchCandidates | src/wizards/JBangAddMissingDependencyWizard.ts:30-48 | undefined exactly when the search was cancelled; nothing when no document is counted or listed; the kept ids otherwise |
| AddMissingDependencyWizard.CommonParts | src/wizards/JBangAddMissingDependencyWizard.ts:151-152 | no more matching parts than parts |
| AddMissingDependencyWizard.AllCommonIffPrefix | src/wizards/JBangAddMissingDependencyWizard.ts:151-152 | every part matches exactly when the group's parts are a prefix of the missing type's parts |
| AddMissingDependencyWizard.CompareNamespaces | src/wizards/JBangAddMissingDependencyWizard.ts:145-160 | more matching group parts first; with equal counts, text order |
| AddMissingDependencyWizard.NamespacesAntisymmetric | src/wizards/JBangAddMissingDependencyWizard.ts:145-160 | swapping the candidates flips the sign, and only equal candidates compare equal |
| AddMissingDependencyWizard.NamespacePreorder | src/wizards/JBangAddMissingDependencyWizard.ts:162-164 | the comparator is a total preorder on any candidates |
| AddMissingDependencyWizard.NamespacesTransitive | src/wizards/JBangAddMissingDependencyWizard.ts:145-160 | the comparator is transitive |
| AddMissingDependencyWizard.SortNamespaces | src/wizards/JBangAddMissingDependencyWizard.ts:162-164 | the sort done in place on an array agrees with the sort function |
| AddMissingDependencyWizard.NamespacesRanked | src/wizards/JBangAddMissingDependencyWizard.ts:162-164 | the ranked candidates are a permutation of the candidates, more matching group parts first and ties in text order |
| AddMissingDependencyWizard.LastDepsIndex | src/wizards/JBangAddMissingDependencyWizard.ts:168-174 | 0 or a dependency line, with no dependency line after it among those looked at |
| AddMissingDependencyWizard.FindNextDepsLine | src/wizards/JBangAddMissingDependencyWizard.ts:166-176 | the line after the last dependency line among the first hundred, or line 1 |
| AddMissingDependencyWizard.NextDepsLineBounds | src/wizards/JBangAddMissingDependencyWizard.ts:166-176 | the insertion line is between 1 and 100, follows a dependency line or the first line, and no dependency line comes from it on among the first hundred |
| AddMissingDependencyWizard.DepsEdit | src/wizards/JBangAddMissingDependencyWizard.ts:101-102 | an insertion at column 0 of the line, of text that starts with `//DEPS ` and ends with a line break |
| AddMissingDependencyWizard.DepsEditIsOneLine | src/wizards/JBangAddMissingDependencyWizard.ts:102 | the inserted text is exactly one whole line `//DEPS <dependency>` |
| AddMissingDependencyWizard.Open | src/wizards/JBangAddMissingDependencyWizard.ts:18-64 | a cancelled search does nothing; an empty result warns `No dependencies found for '<type>'`; otherwise the ranked candidates are offered, and a chosen one is inserted as a `//DEPS` line after the last one |
| DependencyPasteEditProvider.ToJBangDependency | src/DependencyPasteEditProvider.ts:116-123 | a line exactly when the group and the artifact are both set and not empty; the line starts with `//DEPS ` |
| DependencyPasteEditProvider.ToJBangDependencyParses | src/DependencyPasteEditProvider.ts:116-123 | the coordinate after `//DEPS ` reads back, with the extension's own parser, as the group, the artifact and the printed version (`LATEST` when missing, `@pom` for a POM) |
| DependencyPasteEditProvider.Converted | src/DependencyPasteEditProvider.ts:108-110 | at most one line per element, each starting with `//DEPS ` |
| DependencyPasteEditProvider.ConvertedKeepsComplete | src/DependencyPasteEditProvider.ts:108-110 | the lines are those of the elements with a group and an artifact, one each, in order |
| DependencyPasteEditProvider.Complete | src/DependencyPasteEditProvider.ts:118-120 | only elements with a group and an artifact |
| DependencyPasteEditProvider.ConvertDependencies | src/DependencyPasteEditProvider.ts:104-114 | one element converts on its own; a list is undefined exactly when no element converts; the result starts with `//DEPS ` |
| DependencyPasteEditProvider.ManyOnePerLine | src/DependencyPasteEditProvider.ts:107-111 | a pasted list gives one line per converted element, in order |
| DependencyPasteEditProvider.Stripped | src/DependencyPasteEditProvider.ts:69-72 | when the converted text starts with the line, the line followed by the result is the converted text; otherwise the result is the converted text |
| DependencyPasteEditProvider.LinePlusEditIsConverted | src/DependencyPasteEditProvider.ts:53-72 | whenever an edit is offered, the line pasted on followed by the edit reads exactly as the converted dependencies, so a typed `//DE` is completed and not repeated |
| DependencyPasteEditProvider.PasteOnLine | src/DependencyPasteEditProvider.ts:56-79 | nothing unless the line is empty or a prefix of `//DEPS`, the paste starts with a dependency tag and converts; then one edit titled `Paste as JBang //DEPS` |
| DependencyPasteEditProvider.ProvideDocumentPasteEdits | src/DependencyPasteEditProvider.ts:33-80 | nothing outside a JBang file, for an empty or missing paste, when cancelled or for several ranges; otherwise the edit for the line pasted on, with its end trimmed |
| TemplateExec.ListTemplates | src/wizards/templateExec.ts:7-35 | one template per entry, labelled with its name and keeping its description; output that does not parse gives none |
| TemplateExec.GenerateArgs | src/wizards/templateExec.ts:57-66 | `init` first, `--force` and the script name last |
| TemplateExec.Args | src/wizards/templateExec.ts:57-66 | `init` first, the template after `-t` exactly when a non-empty template is set, `--force` and the script last; five arguments with a template, three without |
| TemplateExec.NewFiles | src/wizards/templateExec.ts:46 | a file is new exactly when it is listed after the generation and not before |
| TemplateExec.NewFilesInOrder | src/wizards/templateExec.ts:46 | the new files keep their order in the listing after the generation |
| TemplateExec.GenerateScript | src/wizards/templateExec.ts:37-48 | runs `generateArgs` and returns the files listed after and not before |
| JBangScriptWizard.ValidateName | src/wizards/JBangScriptWizard.ts:153-168 | valid exactly when not empty, without spaces and with a supported extension; otherwise the message of the first failing check |
| JBangScriptWizard.ValidateTemplateName | src/wizards/JBangScriptWizard.ts:170-178 | valid exactly when not empty and without spaces; otherwise the message of the first failing check |
| JBangScriptWizard.ScriptNamesAreTemplateNames | src/wizards/JBangScriptWizard.ts:153-178 | every valid script name is a valid template name, and a valid template name fails as a script name only for want of an extension |
| JBangScriptWizard.ExtensionMakesValid | src/wizards/JBangScriptWizard.ts:152-168 | a name without spaces ending in a supported extension is valid |
| JBangScriptWizard.ScriptGenState.constructor | src/wizards/JBangScriptWizard.ts:37-39 | three steps and nothing chosen yet |
| JBangScriptWizard.ScriptGenState.InputTemplate | src/wizards/JBangScriptWizard.ts:65-105 | the first pick made: the custom item leads to the custom template step, "No template" leaves the template unset, any other label becomes the template |
| JBangScriptWizard.ScriptGenState.InputCustomTemplate | src/wizards/JBangScriptWizard.ts:121-136 | four steps, shown as step 2, and the entered name becomes the template |
| JBangScriptWizard.ScriptGenState.InputScriptName | src/wizards/JBangScriptWizard.ts:138-150 | the entered name becomes the script name, on the step before the total |
| JBangScriptWizard.TemplateChoices | src/wizards/JBangScriptWizard.ts:73-80 | "No template", the custom item, then one item per listed template, in order |
| JBangScriptWizard.Wizard.constructor | src/wizards/JBangScriptWizard.ts:28-29 | no templates listed yet |
| JBangScriptWizard.Wizard.GetTemplates | src/wizards/JBangScriptWizard.ts:114-119 | the templates are listed the first time and kept after |
| JBangScriptWizard.CustomPath | src/wizards/JBangScriptWizard.ts:36-40 | the custom template path takes four steps with the script name third; the other paths take three with the script name second |
| JBangCodeActions.FirstMatch | src/codeactions/JBangCodeActions.ts:75 | the leftmost match, and at it the longest group within the line, as the greedy `(.*)` takes it |
| JBangCodeActions.Capture | src/codeactions/JBangCodeActions.ts:71-76 | no capture exactly when the pattern matches nowhere |
| JBangCodeActions.CaptureRoundTrip | src/codeactions/JBangCodeActions.ts:71-76 | a message `u + before + x + after`, with no earlier match of `before` and no line break in `x`, captures exactly `x` |
| JBangCodeActions.CompilerMessages | src/codeactions/JBangCodeActions.ts:71-74 | `The import x cannot be resolved` and `The package x does not exist` capture `x` |
| JBangCodeActions.MissingClass | src/codeactions/JBangCodeActions.ts:77-84 | the line from the diagnostic's start to its first `;` after that start (or the line's end), with only blanks cut off both ends: a contiguous part of the line, neither end blank, holding no `;` |
| JBangCodeActions.Defined | src/codeactions/JBangCodeActions.ts:63 | the defined values of the list, each defined element kept and nothing else |
| JBangCodeActions.DefinedCons | src/codeactions/JBangCodeActions.ts:63 | filtering keeps order: the first element's value, when defined, comes before the defined values of the rest |
| JBangCodeActions.ImportLineClass | src/codeactions/JBangCodeActions.ts:77-84 | on `head + cls + ";" + rest` a diagnostic starting at `cls` names exactly `cls` |
| JBangCodeActions.CreateCommandCodeAction | src/codeactions/JBangCodeActions.ts:67-98 | a fix names a non-empty class, is titled `Find '<class>' dependency...` and carries the document and the diagnostic |
| JBangCodeActions.FixMadeIff | src/codeactions/JBangCodeActions.ts:75-96 | a fix is made exactly when the message captures a non-empty group and the class read from the line is not empty |
| JBangCodeActions.Actions | src/codeactions/JBangCodeActions.ts:58-63 | the fixes made, and only those |
| JBangCodeActions.ActionsInOrder | src/codeactions/JBangCodeActions.ts:58-63 | the fixes keep the order of the diagnostics: the first diagnostic's fix, when made, comes before the fixes for the rest |
| JBangCodeActions.QuickFixes | src/codeactions/JBangCodeActions.ts:42-64 | no qualifying diagnostic gives nothing; every fix is for a Java diagnostic with the unresolved import code, as `code` or `data.ecjProblemId` |
| JBangCodeActions.ProvideCodeActions | src/codeactions/JBangCodeActions.ts:33-65 | nothing when JBang is not supported for the document or it is not a JBang file; the quick fixes otherwise |
| JBangCodeActions.EveryUnresolvedImportFixed | src/codeactions/JBangCodeActions.ts:42-64 | every qualifying diagnostic whose fix can be made gets it |
| JBangCodeActions.UnresolvedImportOffersClass | src/codeactions/JBangCodeActions.ts:67-98 | an unresolved import `head + cls + ";"` reported where `cls` begins is fixed by finding the dependency of `cls` |

## Left out

- Network access: the Maven Central, SDKMAN and GitHub queries become parameters. The
  searches are given as a function from the query to the parsed answer, the Groovy listing
  and the Kotlin releases as the fetched text and data; `None` stands for a failed or
  cancelled request.
- The LRU query and document caches of the dependency completers are not modelled: a
  cached answer is the same answer, so the search function stands for both.
- The clock: `new Date().getTime()` is the parameter `now` of each call that reads it.
- A missing `v` or `latestVersion` in a search document is modelled as the empty string,
  which JavaScript treats as falsy just as it treats `undefined`.
- `EMPTY_LIST` is imported from `src/completion/CompletionParticipant.ts`; the version of
  that file this model follows does not define it, and it is modelled as an empty, complete
  list.
- `JBANG_SAVE_SCRIPT` and `JBANG_ADD_MISSING_DEPENDENCY` (from `src/CommandManager.ts`)
  are not part of this model. The save command's identifier is a parameter, and the quick
  fix keeps the class and the document it would pass without naming the command.
- `DEPS_PREFIX` as imported by `findNextDepsLine` is a parameter: the version of
  `src/JBangUtils.ts` this model follows does not define it.
- `RemoteDependencyCompletion.DEPS_PREFIX`: `src/completion/RemoteDependencyCompletion.ts`
  imports `DEPS_PREFIX` from `src/JBangUtils.ts`, whose modelled version does not define it. The
  model assumes the value `"//DEPS "` that `src/CompletionProvider.ts` and
  `src/completion/DependencyCompletion.ts` define. It only matters for the start position
  `findStartPosition` falls back to when no delimiter precedes the cursor.
- Strings are sequences of characters, not of UTF-16 code units. Positions, `charAt`,
  `substring`, `length`, `<` and `localeCompare` (and with them the qualifier order of
  `Versions.CompareParsed`) agree with the program only on text without characters outside
  the Basic Multilingual Plane. This affects `TextHelper`, `CompletionProvider`,
  `CodeLensProvider`, `JBangCodeActions` and `Versions`.
- `Versions.CompareParsed`: `parseInt` and the subtraction of numbers are IEEE doubles in
  the program, but unbounded integers (`DecimalValue`) here. Two segments that differ only
  beyond 2^53 are equal to the program but not to the model.
- `../utils/version` is not part of this model; `DependencyCompletion` uses the comparators
  of `src/models/Version.ts`.
- `isJBangSupported` is imported at `src/codeactions/JBangCodeActions.ts:17` from
  `src/JBangUtils.ts`, whose modelled version does not define it; it is the boolean
  parameter `supported` of `JBangCodeActions.ProvideCodeActions`.
- The order of the gates in `provideCodeActions` (support, then the diagnostics, then the
  file) is not kept; the result is the same in every case, and only the logging of each
  diagnostic depends on it.
- `UNRESOLVED_TYPE` is declared in `src/codeactions/JBangCodeActions.ts` but never used, so
  it is not modelled.
- Diagnostic codes that are numbers, or codes held in an object, are modelled as missing:
  they never equal the string `UNRESOLVED_IMPORT`.
- XML parsing (`fast-xml-parser`) is not modelled: the paste provider takes the parsed
  `dependency` element or list as a parameter.
- `localeCompare` is modelled as lexicographic order on characters, and `toLowerCase` on
  ASCII letters only.
- `Array.prototype.sort` is modelled as a stable insertion sort. The sorts done in place
  are array methods proved to agree with that function.
- `document.lineAt` and `split(/\r?\n/)` are modelled by one line split, at `\n` with a
  preceding `\r` dropped; a lone `\r` does not break a line.
- The editor and the filesystem are not modelled: `getTargetDirectory`, the file listing
  (given as the lists before and after), `showTextDocument`, the delayed synchronize
  command, `applyEdit` and `save`, progress notifications, warning messages (kept as the
  message text of the outcome), and the back button of the multi-step input.
- Quick-pick and input-box answers are parameters: the label picked, or `None` when the
  box is dismissed.
- Errors thrown by a failed fetch are modelled as a missing result (`None`); their
  messages are not.
- The code lens commands' titles, tooltips and arguments are not modelled; each lens keeps
  its kind and range.
- `src/wizards/JBangInstallAppWizard.ts`: its `validateName` is the same rule as
  `validateTemplateName`, modelled once as `JBangScriptWizard.ValidateTemplateName`.
- Not modelled because they are filesystem lookups, process spawning, editor lifecycle or
  build tooling: the resource, local-dependency and source completers,
  `src/DocumentationProvider.ts`, the hover provider's documentation lookup,
  `src/utils/*`, `src/JBangExec.ts`, `src/JBangRunner.ts`, `src/JBangTaskProvider.ts`,
  `src/JBangDebugger.ts`, `src/extension.ts`, `src/CommandManager.ts`, `src/JBangConfig.ts`,
  `src/Assets.ts` and the build scripts.
- `test/suite/codeLensProvider.test.ts` expects a `getMainMethodPosition` that
  `src/CodeLensProvider.ts` does not have; the model follows the provider's own scan.
- `Versions.CompareVersions`: the comparison is not antisymmetric for qualifiers that differ
  only in case (`1.0-RC` and `1.0-rc` each compare above the other), although a comparator
  is expected to be. The model follows the code. `Versions.CaseTwinsBothGreater` proves
  the asymmetry, and the ordering lemmas for sorted lists assume no such pair.
- `VersionCache.SortedNewestFirst`: stated only for lists without such case twins, for the
  reason above.
- `AddMissingDependencyWizard.KeptOncePerGA`: stated only when no group holds a `:` and
  no two versions of one artifact are case twins; a `:` inside a group could make two
  different artifacts share their `g:a` text.
- `AddMissingDependencyWizard.KeptNewest`: stated only under the same two conditions
  (`NoCaseTwinVersions` and `NoColonGroups`), for the same reasons: a case twin of the
  newest version could be kept in its place, and a `:` inside a group could merge two
  artifacts.
- `JBangScriptWizard.ScriptGenState.InputTemplate`: requires that some pick is made. When
  every pick is dismissed, the loop at `src/wizards/JBangScriptWizard.ts:72-104` asks again
  without end; the model takes the answers as a finite sequence and does not describe that
  endless run.

## Findings

| source | as written | input that shows it | evidently intended | confidence | as-written member | corrected member |
|---|---|---|---|---|---|---|
| src/EditorListener.ts:27 | `line.startsWith("//DEPS" \|\| line.startsWith("//JAVA") \|\| line.startsWith("///usr/bin/env jbang"))`: the `\|\|` chain is the argument of the first `startsWith` and evaluates to the non-empty `"//DEPS"`, so only `//DEPS` lines mark a Java editor as a JBang file | a `java` document whose only directive is `//JAVA 17` | any of the listed directives marks the file | high (not executed) | EditorListener.JavaOnlyScriptMissed | EditorListener.CorrectedExtendsAsWritten |
| src/completion/JavaOptionsCompletion.ts:48 | the directive is chosen by `matches(lineText)` without the space, so `JAVA` wins on `//JAVAC_OPTIONS ` and `//JAVA_OPTIONS ` lines | the line `//JAVAC_OPTIONS ` with the cursor at its end gets the Java versions | the directive that `applies` matched, with its space | high (not executed) | JavaOptionsCompletion.OptionDirectivesNeverChosen | JavaOptionsCompletion.SpacedChoosesOwnDirective |
| src/completion/GroovyVersionCompletion.ts:68-69 | a listing line starts with a space, and `split(" ")` then yields an empty first token, which is listed as a version | the listing line ` 4.0.0` lists `""` and `4.0.0` | only the non-empty tokens | high (not executed) | GroovyVersionCompletion.EmptyTokenListed | GroovyVersionCompletion.SearchVersionsFilled |
