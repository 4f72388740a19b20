/** Completion of the values of the Java directives: Java versions after `//JAVA`, and
    compiler, runtime and native-image options after the option directives. */
module JavaOptionsCompletion {
  import opened Wrappers
  import opened Text
  import opened Editor
  import opened Directives
  import Arrays
  import TextHelper
  import DirectivesCompletion

  /** The directives this completer serves, in the order they are tried. */
  const DIRECTIVES: seq<Directive> :=
    [COMPILE_OPTIONS, RUNTIME_OPTIONS, JAVA, JAVAC_OPTIONS, JAVA_OPTIONS, NATIVE_OPTIONS]

  /** The Java versions offered, newest first. */
  const JAVA_VERSIONS: seq<nat> := [21, 17, 11, 8]

  /** `applies(lineText, position)`: some served directive starts the line followed by a
      space, and the cursor is at or past the end of its prefix. */
  function Applies(lineText: string, position: Position): (r: bool)
    ensures r <==> exists i :: 0 <= i < |DIRECTIVES| && DIRECTIVES[i].Matches(lineText, true)
                              && position.character >= |DIRECTIVES[i].Prefix()|
  {
    Arrays.Find(DIRECTIVES, (d: Directive) => d.Matches(lineText, true) && position.character >= |d.Prefix()|).Some?
  }

  /** The directive `provideCompletionItems` works for: the first served directive whose
      prefix starts the line, with or without a space after it. */
  function ChosenDirective(lineText: string): (r: Option<Directive>)
    ensures r.None? <==> forall i :: 0 <= i < |DIRECTIVES| ==> !DIRECTIVES[i].Matches(lineText, false)
    ensures r.Some? ==> r.value in DIRECTIVES && r.value.Matches(lineText, false)
    ensures r.Some? ==> exists i :: 0 <= i < |DIRECTIVES| && DIRECTIVES[i] == r.value
                                    && forall k :: 0 <= k < i ==> !DIRECTIVES[k].Matches(lineText, false)
  {
    Arrays.Find(DIRECTIVES, (d: Directive) => d.Matches(lineText, false))
  }

  /** Whenever the completer applies, it also finds a directive to work for. */
  lemma AppliesChooses(lineText: string, position: Position)
    requires Applies(lineText, position)
    ensures ChosenDirective(lineText).Some?
  {
    var i :| 0 <= i < |DIRECTIVES| && DIRECTIVES[i].Matches(lineText, true);
    MatchesWithSpace(DIRECTIVES[i], lineText);
  }

  /** `//JAVAC_OPTIONS` and `//JAVA_OPTIONS` lines start with `//JAVA`, which comes first in
      the list, so they are served as `JAVA` lines. */
  lemma OptionLinesChooseJava(lineText: string)
    requires JAVAC_OPTIONS.Matches(lineText, false) || JAVA_OPTIONS.Matches(lineText, false)
    ensures ChosenDirective(lineText) == Some(JAVA)
  {
    JavaMatchesLongerNames(lineText, false);
    assert lineText[2] == JAVA.Prefix()[2] == 'J';
    assert COMPILE_OPTIONS.Prefix()[2] == 'C' && RUNTIME_OPTIONS.Prefix()[2] == 'R';
    assert !DIRECTIVES[0].Matches(lineText, false) && !DIRECTIVES[1].Matches(lineText, false);
    assert DIRECTIVES[2] == JAVA;
  }

  /** As written, no line is ever served as a `JAVAC_OPTIONS` or `JAVA_OPTIONS` line. */
  lemma OptionDirectivesNeverChosen(lineText: string)
    ensures ChosenDirective(lineText) != Some(JAVAC_OPTIONS)
    ensures ChosenDirective(lineText) != Some(JAVA_OPTIONS)
  {
    var r := ChosenDirective(lineText);
    if r == Some(JAVAC_OPTIONS) || r == Some(JAVA_OPTIONS) {
      OptionLinesChooseJava(lineText);
    }
  }

  /** The choice with the space that `applies` demands: the first served directive whose
      prefix and a space start the line. */
  function SpacedChosenDirective(lineText: string): (r: Option<Directive>)
    ensures r.None? <==> forall i :: 0 <= i < |DIRECTIVES| ==> !DIRECTIVES[i].Matches(lineText, true)
    ensures r.Some? ==> r.value in DIRECTIVES && r.value.Matches(lineText, true)
    ensures r.Some? ==> exists i :: 0 <= i < |DIRECTIVES| && DIRECTIVES[i] == r.value
                                    && forall k :: 0 <= k < i ==> !DIRECTIVES[k].Matches(lineText, true)
  {
    Arrays.Find(DIRECTIVES, (d: Directive) => d.Matches(lineText, true))
  }

  /** With the space, every served directive is chosen for its own lines. */
  lemma SpacedChoosesOwnDirective(lineText: string, i: nat)
    requires i < |DIRECTIVES| && DIRECTIVES[i].Matches(lineText, true)
    ensures SpacedChosenDirective(lineText) == Some(DIRECTIVES[i])
  {
    var r := SpacedChosenDirective(lineText);
    var j :| 0 <= j < |DIRECTIVES| && DIRECTIVES[j] == r.value && DIRECTIVES[j].Matches(lineText, true)
             && forall k :: 0 <= k < j ==> !DIRECTIVES[k].Matches(lineText, true);
    SpacedKeysDiffer(lineText, i, j);
  }

  lemma SpacedKeysDiffer(lineText: string, i: nat, j: nat)
    requires i < |DIRECTIVES| && j < |DIRECTIVES|
    requires DIRECTIVES[i].Matches(lineText, true) && DIRECTIVES[j].Matches(lineText, true)
    ensures i == j
  {
    var n, m := DIRECTIVES[i].name, DIRECTIVES[j].name;
    DirectivesCompletion.PrefixesOfOneLine(lineText, "//" + n + " ", "//" + m + " ");
    DirectivesCompletion.SpacedKeys(n, m);
    DirectivesCompletion.SpacedKeys(m, n);
    ServedNames(i);
    ServedNames(j);
  }

  /** The served names hold no space and are told apart by their length and first letter. */
  lemma ServedNames(i: nat)
    requires i < |DIRECTIVES|
    ensures ' ' !in DIRECTIVES[i].name
    ensures DirectivesCompletion.Code(DIRECTIVES[i].name)
         == [(15, 'C'), (15, 'R'), (4, 'J'), (13, 'J'), (12, 'J'), (14, 'N')][i]
  {
  }

  /** With the space, a `//JAVAC_OPTIONS ` line is served as such. */
  lemma SpacedChoosesOptionDirectives(lineText: string)
    ensures JAVAC_OPTIONS.Matches(lineText, true) ==> SpacedChosenDirective(lineText) == Some(JAVAC_OPTIONS)
    ensures JAVA_OPTIONS.Matches(lineText, true) ==> SpacedChosenDirective(lineText) == Some(JAVA_OPTIONS)
  {
    if JAVAC_OPTIONS.Matches(lineText, true) {
      SpacedChoosesOwnDirective(lineText, 3);
    }
    if JAVA_OPTIONS.Matches(lineText, true) {
      SpacedChoosesOwnDirective(lineText, 4);
    }
  }

  /** Whenever the completer applies, the spaced choice finds a directive too. */
  lemma AppliesChoosesSpaced(lineText: string, position: Position)
    requires Applies(lineText, position)
    ensures SpacedChosenDirective(lineText).Some?
  {
  }

  /** The decimal texts of the Java versions. */
  function VersionTexts(vs: seq<nat>): (r: seq<string>)
    ensures |r| == |vs| && forall i :: 0 <= i < |vs| ==> r[i] == NatToString(vs[i])
  {
    if vs == [] then [] else [NatToString(vs[0])] + VersionTexts(vs[1..])
  }

  /** `getJavaVersions()`: a snippet choice among the Java versions. */
  function GetJavaVersions(): (r: string)
    ensures r == "${1|21,17,11,8|}"
  {
    JavaVersionTexts();
    "${1|" + Join(VersionTexts(JAVA_VERSIONS), ",") + "|}"
  }

  lemma JavaVersionTexts()
    ensures VersionTexts(JAVA_VERSIONS) == ["21", "17", "11", "8"]
    ensures Join(VersionTexts(JAVA_VERSIONS), ",") == "21,17,11,8"
  {
    VersionDigits();
    var t := VersionTexts(JAVA_VERSIONS);
    assert t == ["21", "17", "11", "8"];
    JoinCons("21", ["17", "11", "8"], ",");
    JoinCons("17", ["11", "8"], ",");
    JoinTwo("11", "8", ",");
    assert ["21"] + ["17", "11", "8"] == t;
    assert ["17"] + ["11", "8"] == ["17", "11", "8"];
  }

  lemma VersionDigits()
    ensures NatToString(21) == "21" && NatToString(17) == "17" && NatToString(11) == "11" && NatToString(8) == "8"
  {
    assert NatToString(21) == NatToString(2) + [DigitChar(1)];
    assert NatToString(17) == NatToString(1) + [DigitChar(7)];
    assert NatToString(11) == NatToString(1) + [DigitChar(1)];
  }

  /** The choices of the snippet read back as the Java versions, in order. */
  lemma JavaVersionChoices()
    ensures var choices := Split(GetJavaVersions()[4..|GetJavaVersions()| - 2], ',');
      |choices| == |JAVA_VERSIONS|
      && forall i :: 0 <= i < |JAVA_VERSIONS| ==> IsDigits(choices[i]) && DecimalValue(choices[i]) == JAVA_VERSIONS[i]
  {
    JavaVersionTexts();
    var texts := VersionTexts(JAVA_VERSIONS);
    var r := GetJavaVersions();
    assert r[4..|r| - 2] == Join(texts, [',']);
    forall k | 0 <= k < |texts| ensures ',' !in texts[k] {
      NatToStringHasNo(JAVA_VERSIONS[k], ',');
    }
    SplitJoin(texts, ',');
    forall i | 0 <= i < |JAVA_VERSIONS|
      ensures IsDigits(texts[i]) && DecimalValue(texts[i]) == JAVA_VERSIONS[i]
    {
      DecimalValueOfNatToString(JAVA_VERSIONS[i]);
    }
  }

  /** `getCompletion(label, detail, range, snippet)`: a text item with the detail and range,
      inserting the snippet when one is given. */
  function GetCompletion(labelText: string, detail: string, range: Range, snippet: Option<string>): (item: CompletionItem)
    ensures item.labelText == labelText && item.kind == TextItem
    ensures item.detail == Some(detail) && item.range == Some(range)
    ensures item.command.None? && item.sortText.None? && item.insertText.Some? && item.insertText.value.Snippet?
    ensures snippet.Some? ==> item.insertText.value.snippet == snippet.value
  {
    var text := if snippet.Some? then snippet.value else labelText + " ${0}";
    CompletionItem(labelText, TextItem, Some(Snippet(text)), Some(detail), Some(range), None, None, None)
  }

  /** Without a snippet the item inserts its label, a space and the final tab stop. */
  lemma DefaultSnippet(labelText: string, detail: string, range: Range)
    ensures var text := GetCompletion(labelText, detail, range, None).insertText.value.snippet;
      && StartsWith(text, labelText + " ") && EndsWith(text, "${0}")
      && |text| == |labelText| + 5
  {
    var text := GetCompletion(labelText, detail, range, None).insertText.value.snippet;
    assert text == (labelText + " ") + "${0}";
    StartsWithAppend(labelText + " ", "${0}");
  }

  /** The item for the Java version `v` at position `index` of the list. */
  function VersionItem(v: nat, index: nat, range: Range): (item: CompletionItem)
    ensures item.kind == ValueItem && item.range == Some(range) && item.insertText.None?
    ensures IsDigits(item.labelText) && DecimalValue(item.labelText) == v
    ensures item.sortText.Some? && IsDigits(item.sortText.value) && DecimalValue(item.sortText.value) == index
  {
    DecimalValueOfNatToString(v);
    DecimalValueOfNatToString(index);
    CompletionItem(NatToString(v), ValueItem, None, None, Some(range), None, Some(NatToString(index)), None)
  }

  /** The Java version items list 21, 17, 11 and 8, sorted by their position. */
  lemma JavaVersionLabels(range: Range)
    ensures VersionItem(JAVA_VERSIONS[0], 0, range).labelText == "21"
    ensures VersionItem(JAVA_VERSIONS[1], 1, range).labelText == "17"
    ensures VersionItem(JAVA_VERSIONS[2], 2, range).labelText == "11"
    ensures VersionItem(JAVA_VERSIONS[3], 3, range).labelText == "8"
    ensures forall i :: 0 <= i < |JAVA_VERSIONS| ==> VersionItem(JAVA_VERSIONS[i], i, range).sortText == Some([DigitChar(i)])
  {
    JavaVersionTexts();
  }

  /** Where an option is offered. */
  datatype Scope =
    | NativeImage    // only after `//NATIVE_OPTIONS`
    | AnyButNative   // after every served directive but `//NATIVE_OPTIONS`
    | Compiler       // only after `//JAVAC_OPTIONS` and `//COMPILE_OPTIONS`

  predicate InScope(scope: Scope, d: Directive) {
    match scope
    case NativeImage => d == NATIVE_OPTIONS
    case AnyButNative => d != NATIVE_OPTIONS
    case Compiler => d == JAVAC_OPTIONS || d == COMPILE_OPTIONS
  }

  const HTTPS_DETAIL := "Enables HTTPS support"
  const HTTP_DETAIL := "Enables HTTP support"
  const PREVIEW_DETAIL := "Enables preview language features. Used in conjunction with either -source or --release."
  const DEPRECATION_DETAIL :=
    "Shows a description of each use or override of a deprecated member or class. "
    + "Without the -deprecation option, javac shows a summary of the source files that use or override deprecated members or classes."
    + " The -deprecation option is shorthand for -Xlint:deprecation."
  const SOURCE_DETAIL :=
    "Compiles source code according to the rules of the Java programming language for the "
    + "specified Java SE release. The supported values of release are the current Java SE release and a limited number of previous"
    + " releases, detailed in the command-line help."
  const RELEASE_DETAIL :=
    "Compiles source code according to the rules of the Java programming language for"
    + " the specified Java SE release, generating class files which target that release. Source code is compiled against the "
    + "combined Java SE and JDK API for the specified release."
  const PARAMETERS_DETAIL :=
    "Generates metadata for reflection on method parameters. Stores formal parameter names"
    + " of constructors and methods in the generated class file so that the method java.lang.reflect.Executable.getParameters from "
    + "the Reflection API can retrieve them."

  /** The options are numbered 0 to 6 in the order they are offered. */
  const OPTION_COUNT: nat := 7

  function OptionLabel(k: nat): string {
    match k
    case 0 => "--enable-https"
    case 1 => "--enable-http"
    case 2 => "--enable-preview"
    case 3 => "-deprecation"
    case 4 => "-source"
    case 5 => "--release"
    case _ => "-parameters"
  }

  function OptionDetail(k: nat): string {
    match k
    case 0 => HTTPS_DETAIL
    case 1 => HTTP_DETAIL
    case 2 => PREVIEW_DETAIL
    case 3 => DEPRECATION_DETAIL
    case 4 => SOURCE_DETAIL
    case 5 => RELEASE_DETAIL
    case _ => PARAMETERS_DETAIL
  }

  /** The snippet of option `k`; `None` takes the default snippet. */
  function OptionSnippet(k: nat): Option<string> {
    match k
    case 4 => Some("-source " + GetJavaVersions())
    case 5 => Some("--release " + GetJavaVersions())
    case _ => None
  }

  function OptionScope(k: nat): Scope {
    match k
    case 0 => NativeImage
    case 1 => NativeImage
    case 2 => AnyButNative
    case _ => Compiler
  }

  /** Option `k` is withheld on a line that already holds its text; `--release` also on a
      line holding `-source`. */
  predicate Withheld(k: nat, lineText: string) {
    match k
    case 0 => Contains(lineText, "--enable-https")
    case 1 => Contains(lineText, "--enable-http ")
    case 2 => Contains(lineText, "--enable-preview")
    case 3 => Contains(lineText, "-deprecation")
    case 4 => Contains(lineText, "-source")
    case 5 => Contains(lineText, "-source") || Contains(lineText, "--release")
    case _ => Contains(lineText, "-parameters")
  }

  /** Option `k` is offered after directive `d` on `lineText`. */
  predicate Shown(k: nat, d: Directive, lineText: string) {
    InScope(OptionScope(k), d) && !Withheld(k, lineText)
  }

  /** The options below `n` that are offered after `d` on `lineText`, in order. */
  function ShownOptions(n: nat, d: Directive, lineText: string): seq<nat> {
    if n == 0 then []
    else ShownOptions(n - 1, d, lineText) + (if Shown(n - 1, d, lineText) then [n - 1] else [])
  }

  /** An option is among the offered ones below `n` iff it is below `n` and offered. */
  lemma {:induction false} ShownOptionsIff(n: nat, d: Directive, lineText: string, k: nat)
    ensures k in ShownOptions(n, d, lineText) <==> k < n && Shown(k, d, lineText)
  {
    if n > 0 {
      ShownOptionsIff(n - 1, d, lineText, k);
    }
  }

  /** The offered options are listed in increasing order, each once. */
  lemma {:induction false} ShownOptionsIncreasing(n: nat, d: Directive, lineText: string)
    ensures forall i, j :: 0 <= i < j < |ShownOptions(n, d, lineText)| ==>
      ShownOptions(n, d, lineText)[i] < ShownOptions(n, d, lineText)[j]
  {
    if n > 0 {
      ShownOptionsIncreasing(n - 1, d, lineText);
      var prev := ShownOptions(n - 1, d, lineText);
      forall i | 0 <= i < |prev| ensures prev[i] < n - 1 {
        ShownOptionsIff(n - 1, d, lineText, prev[i]);
      }
      var ks := ShownOptions(n, d, lineText);
      if Shown(n - 1, d, lineText) {
        assert ks == prev + [n - 1];
        forall i, j | 0 <= i < j < |ks| ensures ks[i] < ks[j] {
          assert ks[i] == prev[i];
          if j < |prev| {
            assert ks[j] == prev[j];
          } else {
            assert ks[j] == n - 1;
          }
        }
      } else {
        assert ks == prev + [];
        forall i, j | 0 <= i < j < |ks| ensures ks[i] < ks[j] {
          assert ks[i] == prev[i] && ks[j] == prev[j];
        }
      }
    }
  }

  /** The item of option `k`. */
  function OptionItem(k: nat, range: Range): CompletionItem {
    GetCompletion(OptionLabel(k), OptionDetail(k), range, OptionSnippet(k))
  }

  /** The items of options `ks`, in order. */
  function OptionItems(ks: seq<nat>, range: Range): (items: seq<CompletionItem>)
    ensures |items| == |ks|
  {
    seq(|ks|, i requires 0 <= i < |ks| => OptionItem(ks[i], range))
  }

  /** One more option considered: its item is added exactly when it is offered. */
  lemma OptionItemsStep(n: nat, d: Directive, lineText: string, range: Range)
    ensures OptionItems(ShownOptions(n + 1, d, lineText), range)
         == OptionItems(ShownOptions(n, d, lineText), range)
            + (if Shown(n, d, lineText) then [OptionItem(n, range)] else [])
  {
    var prev := ShownOptions(n, d, lineText);
    if Shown(n, d, lineText) {
      var a, b := OptionItems(prev + [n], range), OptionItems(prev, range) + [OptionItem(n, range)];
      assert forall i :: 0 <= i < |a| ==> a[i] == b[i];
    } else {
      assert prev + [] == prev;
    }
  }

  /** Options from `n` on that are out of scope for `d` add nothing. */
  lemma {:induction false} OutOfScopeFrom(n: nat, d: Directive, lineText: string)
    requires n <= OPTION_COUNT
    requires forall k :: n <= k < OPTION_COUNT ==> !InScope(OptionScope(k), d)
    ensures ShownOptions(OPTION_COUNT, d, lineText) == ShownOptions(n, d, lineText)
    decreases OPTION_COUNT - n
  {
    if n < OPTION_COUNT {
      OutOfScopeFrom(n + 1, d, lineText);
      assert ShownOptions(n + 1, d, lineText) == ShownOptions(n, d, lineText) + [];
    }
  }

  /** `ks` offers an option labelled `labelText`. */
  predicate Offers(ks: seq<nat>, labelText: string) {
    exists i :: 0 <= i < |ks| && OptionLabel(ks[i]) == labelText
  }

  /** The option labels have distinct lengths. */
  lemma LabelLengths(k: nat)
    requires k < OPTION_COUNT
    ensures |OptionLabel(k)| == [14, 13, 16, 12, 7, 9, 11][k]
  {
  }

  /** An option is offered by label exactly when the option itself is offered. */
  lemma OffersByLabel(d: Directive, lineText: string, k: nat)
    requires k < OPTION_COUNT
    ensures Offers(ShownOptions(OPTION_COUNT, d, lineText), OptionLabel(k)) <==> Shown(k, d, lineText)
  {
    var ks := ShownOptions(OPTION_COUNT, d, lineText);
    if Offers(ks, OptionLabel(k)) {
      var i :| 0 <= i < |ks| && OptionLabel(ks[i]) == OptionLabel(k);
      ShownOptionsIff(OPTION_COUNT, d, lineText, ks[i]);
      LabelLengths(k);
      LabelLengths(ks[i]);
    }
    if Shown(k, d, lineText) {
      ShownOptionsIff(OPTION_COUNT, d, lineText, k);
      var i :| 0 <= i < |ks| && ks[i] == k;
    }
  }

  /** After `//NATIVE_OPTIONS`: `--enable-https` while the line lacks it, `--enable-http`
      while the line lacks `--enable-http ` with its space, and nothing else. */
  lemma NativeImageOffers(lineText: string)
    ensures var ks := ShownOptions(OPTION_COUNT, NATIVE_OPTIONS, lineText);
      && (Offers(ks, "--enable-https") <==> !Contains(lineText, "--enable-https"))
      && (Offers(ks, "--enable-http") <==> !Contains(lineText, "--enable-http "))
      && forall i :: 0 <= i < |ks| ==> ks[i] < 2
  {
    OffersByLabel(NATIVE_OPTIONS, lineText, 0);
    OffersByLabel(NATIVE_OPTIONS, lineText, 1);
    var ks := ShownOptions(OPTION_COUNT, NATIVE_OPTIONS, lineText);
    forall i | 0 <= i < |ks| ensures ks[i] < 2 {
      ShownOptionsIff(OPTION_COUNT, NATIVE_OPTIONS, lineText, ks[i]);
    }
  }

  /** After any other served directive: `--enable-preview` while the line lacks it, and no
      native-image option. */
  lemma PreviewOffers(d: Directive, lineText: string)
    requires d != NATIVE_OPTIONS
    ensures var ks := ShownOptions(OPTION_COUNT, d, lineText);
      && (Offers(ks, "--enable-preview") <==> !Contains(lineText, "--enable-preview"))
      && !Offers(ks, "--enable-https") && !Offers(ks, "--enable-http")
  {
    OffersByLabel(d, lineText, 0);
    OffersByLabel(d, lineText, 1);
    OffersByLabel(d, lineText, 2);
  }

  /** After `//JAVAC_OPTIONS` or `//COMPILE_OPTIONS`: `-deprecation` and `-source` each
      while the line lacks it. */
  lemma CompilerOffers(d: Directive, lineText: string)
    requires d == JAVAC_OPTIONS || d == COMPILE_OPTIONS
    ensures var ks := ShownOptions(OPTION_COUNT, d, lineText);
      && (Offers(ks, "-deprecation") <==> !Contains(lineText, "-deprecation"))
      && (Offers(ks, "-source") <==> !Contains(lineText, "-source"))
  {
    OffersByLabel(d, lineText, 3);
    OffersByLabel(d, lineText, 4);
  }

  /** After `//JAVAC_OPTIONS` or `//COMPILE_OPTIONS`: `--release` only while the line lacks
      both `-source` and `--release`, and `-parameters` while the line lacks it. */
  lemma ReleaseAndParametersOffers(d: Directive, lineText: string)
    requires d == JAVAC_OPTIONS || d == COMPILE_OPTIONS
    ensures var ks := ShownOptions(OPTION_COUNT, d, lineText);
      && (Offers(ks, "--release") <==> !Contains(lineText, "-source") && !Contains(lineText, "--release"))
      && (Offers(ks, "-parameters") <==> !Contains(lineText, "-parameters"))
  {
    OffersByLabel(d, lineText, 5);
    OffersByLabel(d, lineText, 6);
  }

  /** After `//RUNTIME_OPTIONS` (and `//JAVA_OPTIONS`) only `--enable-preview` is offered. */
  lemma RuntimeOffers(d: Directive, lineText: string)
    requires d == RUNTIME_OPTIONS || d == JAVA_OPTIONS
    ensures var ks := ShownOptions(OPTION_COUNT, d, lineText);
      forall i :: 0 <= i < |ks| ==> OptionLabel(ks[i]) == "--enable-preview"
  {
    var ks := ShownOptions(OPTION_COUNT, d, lineText);
    forall i | 0 <= i < |ks| ensures OptionLabel(ks[i]) == "--enable-preview" {
      ShownOptionsIff(OPTION_COUNT, d, lineText, ks[i]);
    }
  }

  /** The range the Java versions replace: from just after `//JAVA ` to the end of the line. */
  function JavaRange(lineText: string, position: Position): (r: Range)
    ensures r.start == Position(position.line, 7) && r.end == Position(position.line, |lineText|)
  {
    Range(Position(position.line, |JAVA.Prefix()| + 1), Position(position.line, |lineText|))
  }

  /** The range an option replaces: the word under the cursor, which starts after the last
      delimiter before the cursor or, failing one, after the directive and its space. */
  function OptionRange(d: Directive, lineText: string, position: Position): Range {
    Range(TextHelper.StartPosition(lineText, position, d.Prefix() + " ", TextHelper.IsDelimiter),
          TextHelper.EndPosition(lineText, position))
  }

  /** The items of the options offered below `n`. */
  ghost predicate ItemsUpTo(items: seq<CompletionItem>, n: nat, d: Directive, lineText: string, range: Range) {
    items == OptionItems(ShownOptions(n, d, lineText), range)
  }

  /** Option `n`'s push: its item is pushed when `show`, which is exactly when it is offered. */
  method PushOption(items: seq<CompletionItem>, show: bool, item: CompletionItem, range: Range,
                    ghost n: nat, ghost d: Directive, ghost lineText: string)
    returns (r: seq<CompletionItem>)
    requires item == OptionItem(n, range) && show == Shown(n, d, lineText)
    requires ItemsUpTo(items, n, d, lineText, range)
    ensures ItemsUpTo(r, n + 1, d, lineText, range)
  {
    r := if show then items + [item] else items;
    OptionItemsStep(n, d, lineText, range);
  }

  /** What `provideCompletionItems` returns once the directive is chosen: nothing without a
      directive; the Java versions for `JAVA`; otherwise the offered options. */
  method Provide(directive: Option<Directive>, lineText: string, position: Position) returns (list: CompletionList)
    ensures !list.isIncomplete
    ensures directive.None? ==> list.items == []
    ensures directive == Some(JAVA) ==>
      |list.items| == |JAVA_VERSIONS|
      && forall i :: 0 <= i < |JAVA_VERSIONS| ==>
           list.items[i] == VersionItem(JAVA_VERSIONS[i], i, JavaRange(lineText, position))
    ensures directive.Some? && directive.value != JAVA ==>
      list.items == OptionItems(ShownOptions(OPTION_COUNT, directive.value, lineText),
                                OptionRange(directive.value, lineText, position))
  {
    var items: seq<CompletionItem> := [];
    if directive.None? {
      return EmptyList();
    }
    var d := directive.value;
    var start := TextHelper.FindStartPosition(lineText, position, d.Prefix() + " ", None);
    var end := TextHelper.FindEndPosition(lineText, position);
    var javaVersions := GetJavaVersions();
    var range: Range;
    if d == JAVA {
      range := Range(Position(position.line, |JAVA.Prefix()| + 1), Position(position.line, |lineText|));
      items := JavaVersionItems(range);
      return CompletionList(items, false);
    }
    range := Range(start, end);
    assert range == OptionRange(d, lineText, position);
    if d == NATIVE_OPTIONS {
      items := NativeImageItems(lineText, range);
      return CompletionList(items, false);
    }
    items := PreviewItems(d, lineText, range);
    if d == JAVAC_OPTIONS || d == COMPILE_OPTIONS {
      items := CompilerItems(items, d, lineText, range, javaVersions);
    } else {
      OutOfScopeFrom(3, d, lineText);
    }
    return CompletionList(items, false);
  }

  /** `JAVA_VERSIONS.forEach`: one value item per version, sorted by its position. */
  method JavaVersionItems(range: Range) returns (items: seq<CompletionItem>)
    ensures |items| == |JAVA_VERSIONS|
    ensures forall i :: 0 <= i < |JAVA_VERSIONS| ==> items[i] == VersionItem(JAVA_VERSIONS[i], i, range)
  {
    items := [];
    var i := 0;
    while i < |JAVA_VERSIONS|
      invariant 0 <= i <= |JAVA_VERSIONS| && |items| == i
      invariant forall k :: 0 <= k < i ==> items[k] == VersionItem(JAVA_VERSIONS[k], k, range)
    {
      var v := JAVA_VERSIONS[i];
      var item := NewItem(NatToString(v), ValueItem);
      item := item.(sortText := Some(NatToString(i)));
      item := item.(range := Some(range));
      items := items + [item];
      i := i + 1;
    }
  }

  /** The pushes after `//NATIVE_OPTIONS`. */
  method NativeImageItems(lineText: string, range: Range) returns (items: seq<CompletionItem>)
    ensures items == OptionItems(ShownOptions(OPTION_COUNT, NATIVE_OPTIONS, lineText), range)
  {
    ghost var d := NATIVE_OPTIONS;
    items := [];
    items := PushOption(items, !Contains(lineText, "--enable-https"),
                        GetCompletion("--enable-https", HTTPS_DETAIL, range, None), range, 0, d, lineText);
    items := PushOption(items, !Contains(lineText, "--enable-http "),
                        GetCompletion("--enable-http", HTTP_DETAIL, range, None), range, 1, d, lineText);
    NativeImageOptionsFirst(lineText);
  }

  /** Only the first two options are in scope after `//NATIVE_OPTIONS`. */
  lemma NativeImageOptionsFirst(lineText: string)
    ensures ShownOptions(OPTION_COUNT, NATIVE_OPTIONS, lineText) == ShownOptions(2, NATIVE_OPTIONS, lineText)
  {
    assert |NATIVE_OPTIONS.name| != |JAVAC_OPTIONS.name| && |NATIVE_OPTIONS.name| != |COMPILE_OPTIONS.name|;
    OutOfScopeFrom(2, NATIVE_OPTIONS, lineText);
  }

  /** The `--enable-preview` push after every other directive. */
  method PreviewItems(d: Directive, lineText: string, range: Range) returns (items: seq<CompletionItem>)
    requires d != NATIVE_OPTIONS
    ensures ItemsUpTo(items, 3, d, lineText, range)
  {
    items := [];
    OptionItemsStep(0, d, lineText, range);
    OptionItemsStep(1, d, lineText, range);
    items := PushOption(items, !Contains(lineText, "--enable-preview"),
                        GetCompletion("--enable-preview", PREVIEW_DETAIL, range, None), range, 2, d, lineText);
  }

  /** The compiler-option pushes after `//JAVAC_OPTIONS` and `//COMPILE_OPTIONS`. */
  method CompilerItems(items0: seq<CompletionItem>, d: Directive, lineText: string, range: Range, javaVersions: string)
    returns (items: seq<CompletionItem>)
    requires d == JAVAC_OPTIONS || d == COMPILE_OPTIONS
    requires javaVersions == GetJavaVersions()
    requires ItemsUpTo(items0, 3, d, lineText, range)
    ensures ItemsUpTo(items, OPTION_COUNT, d, lineText, range)
  {
    items := PushOption(items0, !Contains(lineText, "-deprecation"),
                        GetCompletion("-deprecation", DEPRECATION_DETAIL, range, None), range, 3, d, lineText);
    items := SourceAndReleaseItems(items, d, lineText, range, javaVersions);
    items := ParametersItems(items, d, lineText, range);
  }

  /** The `-parameters` push, the last one. */
  method ParametersItems(items0: seq<CompletionItem>, d: Directive, lineText: string, range: Range)
    returns (items: seq<CompletionItem>)
    requires d == JAVAC_OPTIONS || d == COMPILE_OPTIONS
    requires ItemsUpTo(items0, OPTION_COUNT - 1, d, lineText, range)
    ensures ItemsUpTo(items, OPTION_COUNT, d, lineText, range)
  {
    items := PushOption(items0, !Contains(lineText, "-parameters"),
                        GetCompletion("-parameters", PARAMETERS_DETAIL, range, None), range, OPTION_COUNT - 1, d, lineText);
  }

  /** The `-source` push and the `--release` push nested in it. */
  method SourceAndReleaseItems(items0: seq<CompletionItem>, d: Directive, lineText: string, range: Range, javaVersions: string)
    returns (items: seq<CompletionItem>)
    requires d == JAVAC_OPTIONS || d == COMPILE_OPTIONS
    requires javaVersions == GetJavaVersions()
    requires ItemsUpTo(items0, 4, d, lineText, range)
    ensures ItemsUpTo(items, 6, d, lineText, range)
  {
    items := items0;
    if !Contains(lineText, "-source") {
      items := PushOption(items, true,
                          GetCompletion("-source", SOURCE_DETAIL, range, Some("-source " + javaVersions)), range, 4, d, lineText);
      items := PushOption(items, !Contains(lineText, "--release"),
                          GetCompletion("--release", RELEASE_DETAIL, range, Some("--release " + javaVersions)), range, 5, d, lineText);
    } else {
      OptionItemsStep(4, d, lineText, range);
      OptionItemsStep(5, d, lineText, range);
    }
  }

  /** `provideCompletionItems(document, position)` as written, for the line `lineText` at the
      cursor: the directive is chosen without the space. */
  method ProvideCompletionItems(lineText: string, position: Position) returns (list: CompletionList)
    ensures ChosenDirective(lineText).None? ==> list == EmptyList()
    ensures ChosenDirective(lineText) == Some(JAVA) ==>
      !list.isIncomplete && |list.items| == |JAVA_VERSIONS|
      && forall i :: 0 <= i < |JAVA_VERSIONS| ==>
           list.items[i] == VersionItem(JAVA_VERSIONS[i], i, JavaRange(lineText, position))
    ensures JAVAC_OPTIONS.Matches(lineText, false) || JAVA_OPTIONS.Matches(lineText, false) ==>
      |list.items| == |JAVA_VERSIONS|
      && forall i :: 0 <= i < |JAVA_VERSIONS| ==>
           list.items[i] == VersionItem(JAVA_VERSIONS[i], i, JavaRange(lineText, position))
    ensures ChosenDirective(lineText).Some? && ChosenDirective(lineText).value != JAVA ==>
      var d := ChosenDirective(lineText).value;
      list == CompletionList(OptionItems(ShownOptions(OPTION_COUNT, d, lineText), OptionRange(d, lineText, position)), false)
  {
    var directive := ChosenDirective(lineText);
    if JAVAC_OPTIONS.Matches(lineText, false) || JAVA_OPTIONS.Matches(lineText, false) {
      OptionLinesChooseJava(lineText);
    }
    list := Provide(directive, lineText, position);
  }

  /** `provideCompletionItems` with the directive chosen with its space, as `applies` does:
      `//JAVAC_OPTIONS ` lines get the compiler options and `//JAVA_OPTIONS ` lines the
      runtime ones. */
  method ProvideCompletionItemsSpaced(lineText: string, position: Position) returns (list: CompletionList)
    ensures SpacedChosenDirective(lineText).None? ==> list == EmptyList()
    ensures SpacedChosenDirective(lineText) == Some(JAVA) ==>
      !list.isIncomplete && |list.items| == |JAVA_VERSIONS|
      && forall i :: 0 <= i < |JAVA_VERSIONS| ==>
           list.items[i] == VersionItem(JAVA_VERSIONS[i], i, JavaRange(lineText, position))
    ensures SpacedChosenDirective(lineText).Some? && SpacedChosenDirective(lineText).value != JAVA ==>
      var d := SpacedChosenDirective(lineText).value;
      list == CompletionList(OptionItems(ShownOptions(OPTION_COUNT, d, lineText), OptionRange(d, lineText, position)), false)
    ensures JAVAC_OPTIONS.Matches(lineText, true) ==>
      list == CompletionList(OptionItems(ShownOptions(OPTION_COUNT, JAVAC_OPTIONS, lineText),
                                         OptionRange(JAVAC_OPTIONS, lineText, position)), false)
    ensures JAVA_OPTIONS.Matches(lineText, true) ==>
      list == CompletionList(OptionItems(ShownOptions(OPTION_COUNT, JAVA_OPTIONS, lineText),
                                         OptionRange(JAVA_OPTIONS, lineText, position)), false)
  {
    SpacedChoosesOptionDirectives(lineText);
    list := Provide(SpacedChosenDirective(lineText), lineText, position);
  }
}
