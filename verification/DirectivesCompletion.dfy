/** Completion of directive names at the start of a line: the scanner that finds which
    single-use directives the document already has, the rules that decide which directives
    are offered, and the item each offer becomes. */
module DirectivesCompletion {
  import opened Wrappers
  import opened Text
  import opened Editor
  import opened Directives

  const RETRIGGER_COMPLETION := Command("editor.action.triggerSuggest", "Re-trigger completions...", [])

  /** A pseudo-directive: a Quarkus dependency line. */
  const QUARKUS_DEP := Directive("DEPS io.quarkus:quarkus", "", false, true)

  /** `applies(lineText, position)`: on a comment line, or at the start of any line. */
  predicate Applies(lineText: string, position: Position) {
    StartsWith(lineText, "//") || position.character == 0
  }

  /** Every line that holds a directive is one where directive completion applies. */
  lemma AppliesOnDirectiveLines(d: Directive, lineText: string, position: Position, includeSpace: bool)
    requires d.Matches(lineText, includeSpace)
    ensures Applies(lineText, position)
  {
    StartsWithAppend(d.Prefix(), if includeSpace then " " else "");
    StartsWithTrans(lineText, d.Prefix(), d.Prefix() + (if includeSpace then " " else ""));
    StartsWithTrans(lineText, "//", d.Prefix());
  }

  /** `getCompletion(directive, range, command)`: the prefix as label, the snippet
      `prefix ${0}` as insert text, the description as detail; a directive that re-triggers
      completion carries the re-trigger command unless a command was given. */
  function GetCompletion(d: Directive, range: Option<Range>, command: Option<Command>): (item: CompletionItem)
    ensures item.labelText == d.Prefix() && item.kind == TextItem
    ensures item.insertText == Some(Snippet(d.Prefix() + " ${0}"))
    ensures item.detail == Some(d.description) && item.range == range
    ensures item.command.Some? <==> command.Some? || d.reTriggerCompletion
    ensures command.Some? ==> item.command == command
    ensures command.None? && d.reTriggerCompletion ==> item.command == Some(RETRIGGER_COMPLETION)
  {
    var cmd := if command.None? && d.reTriggerCompletion then Some(RETRIGGER_COMPLETION) else command;
    CompletionItem(d.Prefix(), TextItem, Some(Snippet(d.Prefix() + " ${0}")), Some(d.description), range, cmd, None, None)
  }

  /** The directives the scanner looks for, in the insertion order of its set. */
  const CHECKED: seq<Directive> := [
    JAVA, JAVAC_OPTIONS, COMPILE_OPTIONS, DESCRIPTION, CDS, GAV, JAVAAGENT, MANIFEST,
    JAVA_OPTIONS, RUNTIME_OPTIONS, NATIVE_OPTIONS, KOTLIN, GROOVY, MAIN, MODULE, PREVIEW,
    QUARKUS_DEP]

  /** Every directive is matched with its trailing space, except the Quarkus dependency. */
  function IncludeSpace(d: Directive): bool {
    d != QUARKUS_DEP
  }

  /** The first index at or after `j` whose directive matches `line`, or `|checked|`. */
  function MatchFrom(line: string, checked: seq<Directive>, j: nat): (r: nat)
    requires j <= |checked|
    ensures j <= r <= |checked|
    ensures r < |checked| ==> checked[r].Matches(line, IncludeSpace(checked[r]))
    ensures forall t :: j <= t < r ==> !checked[t].Matches(line, IncludeSpace(checked[t]))
    decreases |checked| - j
  {
    if j == |checked| then j
    else if checked[j].Matches(line, IncludeSpace(checked[j])) then j
    else MatchFrom(line, checked, j + 1)
  }

  /** What `scan` records for `lines` while `checked` is still unfound: for each line the
      first unfound directive matching it, which is then no longer looked for; nothing once
      every directive is found. */
  function ScanLines(lines: seq<string>, checked: seq<Directive>): (r: seq<Directive>)
    ensures |r| <= |lines|
    ensures forall d :: d in r ==> d in checked
    decreases |lines|
  {
    if checked == [] || lines == [] then []
    else
      var j := MatchFrom(lines[0], checked, 0);
      if j == |checked| then ScanLines(lines[1..], checked)
      else
        var rest := checked[..j] + checked[j + 1..];
        assert forall x :: x in rest ==> x in checked;
        [checked[j]] + ScanLines(lines[1..], rest)
  }

  /** `DirectiveScanner`: the directives found so far. */
  class DirectiveScanner {
    var directives: seq<Directive>

    constructor()
      ensures directives == []
    {
      directives := [];
    }

    /** `found(directive)` */
    predicate Found(d: Directive)
      reads this
    {
      d in directives
    }

    /** `scan(document)` for a document with text `text`. */
    method Scan(text: string)
      modifies this
      ensures directives == old(directives) + ScanLines(SplitLines(text), CHECKED)
    {
      var checkedDirectives := CHECKED;
      var lines := SplitLines(text);
      var k := 0;
      while k < |lines|
        invariant 0 <= k <= |lines|
        invariant old(directives) + ScanLines(lines, CHECKED) == directives + ScanLines(lines[k..], checkedDirectives)
      {
        if |checkedDirectives| == 0 {
          break;
        }
        var j := FirstMatch(lines[k], checkedDirectives);
        if j < |checkedDirectives| {
          ScanTakeAt(lines, k, checkedDirectives, directives, j);
          directives := directives + [checkedDirectives[j]];
          checkedDirectives := checkedDirectives[..j] + checkedDirectives[j + 1..];
        } else {
          ScanSkipAt(lines, k, checkedDirectives);
        }
        k := k + 1;
      }
    }
  }

  /** The inner loop of `scan`: the index of the first directive of `checked` that matches
      `line`, or `|checked|`. */
  method FirstMatch(line: string, checked: seq<Directive>) returns (j: nat)
    ensures j == MatchFrom(line, checked, 0)
  {
    j := 0;
    while j < |checked|
      invariant 0 <= j <= |checked|
      invariant MatchFrom(line, checked, 0) == MatchFrom(line, checked, j)
    {
      var directive := checked[j];
      var includeSpace := directive != QUARKUS_DEP;
      if directive.Matches(line, includeSpace) {
        return;
      }
      j := j + 1;
    }
  }

  /** The line at `k` records the first directive of `checked` that matches it, which is no
      longer looked for afterwards. */
  lemma ScanTakeAt(lines: seq<string>, k: nat, checked: seq<Directive>, recorded: seq<Directive>, j: nat)
    requires k < |lines| && checked != [] && j == MatchFrom(lines[k], checked, 0) < |checked|
    ensures recorded + ScanLines(lines[k..], checked)
         == (recorded + [checked[j]]) + ScanLines(lines[k + 1..], checked[..j] + checked[j + 1..])
  {
    assert lines[k..][0] == lines[k] && lines[k..][1..] == lines[k + 1..];
    ScanTake(lines[k..], checked, j);
    AppendAssoc(recorded, [checked[j]], ScanLines(lines[k + 1..], checked[..j] + checked[j + 1..]));
  }

  /** A line at `k` that matches no directive of `checked` records nothing. */
  lemma ScanSkipAt(lines: seq<string>, k: nat, checked: seq<Directive>)
    requires k < |lines| && checked != [] && MatchFrom(lines[k], checked, 0) == |checked|
    ensures ScanLines(lines[k..], checked) == ScanLines(lines[k + 1..], checked)
  {
    assert lines[k..][0] == lines[k] && lines[k..][1..] == lines[k + 1..];
  }

  /** Recording `checked[j]` before what the rest records stays within `checked`. */
  lemma TakeOne(checked: seq<Directive>, j: nat, tail: seq<Directive>)
    requires j < |checked| && multiset(tail) <= multiset(checked[..j] + checked[j + 1..])
    ensures multiset([checked[j]] + tail) <= multiset(checked)
  {
    assert checked == checked[..j] + [checked[j]] + checked[j + 1..];
    assert multiset(checked) == multiset(checked[..j] + checked[j + 1..]) + multiset{checked[j]};
  }

  /** Each directive is recorded at most as often as it is looked for. */
  lemma {:induction false} ScanRecordsOnce(lines: seq<string>, checked: seq<Directive>)
    ensures multiset(ScanLines(lines, checked)) <= multiset(checked)
    decreases |lines|
  {
    if checked != [] && lines != [] {
      var j := MatchFrom(lines[0], checked, 0);
      if j == |checked| {
        ScanRecordsOnce(lines[1..], checked);
      } else {
        var rest := checked[..j] + checked[j + 1..];
        ScanRecordsOnce(lines[1..], rest);
        assert ScanLines(lines, checked) == [checked[j]] + ScanLines(lines[1..], rest);
        TakeOne(checked, j, ScanLines(lines[1..], rest));
      }
    }
  }

  /** `d` matches `line` the way the scanner tests it. */
  predicate MatchesLine(d: Directive, line: string) {
    d.Matches(line, IncludeSpace(d))
  }

  /** Some line matches `d`. */
  predicate AnyLineMatches(lines: seq<string>, d: Directive) {
    exists k :: 0 <= k < |lines| && MatchesLine(d, lines[k])
  }

  lemma AnyLineCons(lines: seq<string>, d: Directive)
    requires lines != []
    ensures AnyLineMatches(lines, d) <==> MatchesLine(d, lines[0]) || AnyLineMatches(lines[1..], d)
  {
    if AnyLineMatches(lines, d) && !MatchesLine(d, lines[0]) {
      var k :| 0 <= k < |lines| && MatchesLine(d, lines[k]);
      assert lines[1..][k - 1] == lines[k];
    }
    if AnyLineMatches(lines[1..], d) {
      var k :| 0 <= k < |lines[1..]| && MatchesLine(d, lines[1..][k]);
      assert lines[k + 1] == lines[1..][k];
    }
  }

  /** No line matches two different directives of `checked`. */
  ghost predicate Exclusive(checked: seq<Directive>) {
    forall line, x, y :: x in checked && y in checked && MatchesLine(x, line) && MatchesLine(y, line) ==> x == y
  }

  /** When no line matches two looked-for directives, a directive is found iff it is looked
      for and some line matches it. */
  lemma {:induction false} FoundIff(lines: seq<string>, checked: seq<Directive>, d: Directive)
    requires Exclusive(checked)
    ensures d in ScanLines(lines, checked) <==> d in checked && AnyLineMatches(lines, d)
    decreases |lines|
  {
    if checked != [] && lines != [] {
      var j := MatchFrom(lines[0], checked, 0);
      if j == |checked| {
        FoundIff(lines[1..], checked, d);
        FoundIffSkip(lines, checked, d);
      } else {
        var rest := checked[..j] + checked[j + 1..];
        ExclusiveRest(checked, j);
        FoundIff(lines[1..], rest, d);
        FoundIffTake(lines, checked, j, d);
      }
    }
  }

  lemma ExclusiveRest(checked: seq<Directive>, j: nat)
    requires Exclusive(checked) && j < |checked|
    ensures Exclusive(checked[..j] + checked[j + 1..])
  {
    assert forall x :: x in checked[..j] + checked[j + 1..] ==> x in checked;
  }

  /** A line that matches no looked-for directive records nothing. */
  lemma FoundIffSkip(lines: seq<string>, checked: seq<Directive>, d: Directive)
    requires checked != [] && lines != [] && MatchFrom(lines[0], checked, 0) == |checked|
    requires d in ScanLines(lines[1..], checked) <==> d in checked && AnyLineMatches(lines[1..], d)
    ensures d in ScanLines(lines, checked) <==> d in checked && AnyLineMatches(lines, d)
  {
    AnyLineCons(lines, d);
    if d in checked {
      var t :| 0 <= t < |checked| && checked[t] == d;
      assert !MatchesLine(d, lines[0]);
    }
  }

  /** A line that matches the looked-for directive at `j` records it and stops looking for it. */
  lemma FoundIffTake(lines: seq<string>, checked: seq<Directive>, j: nat, d: Directive)
    requires checked != [] && lines != [] && Exclusive(checked)
    requires j == MatchFrom(lines[0], checked, 0) < |checked|
    requires d in ScanLines(lines[1..], checked[..j] + checked[j + 1..])
         <==> d in checked[..j] + checked[j + 1..] && AnyLineMatches(lines[1..], d)
    ensures d in ScanLines(lines, checked) <==> d in checked && AnyLineMatches(lines, d)
  {
    var e := checked[j];
    var rest := checked[..j] + checked[j + 1..];
    ScanTake(lines, checked, j);
    InRemoved(checked, j, d);
    AnyLineCons(lines, d);
    if d != e && d in rest {
      OthersMiss(checked, lines[0], e, d);
    }
  }

  lemma ScanTake(lines: seq<string>, checked: seq<Directive>, j: nat)
    requires checked != [] && lines != [] && j == MatchFrom(lines[0], checked, 0) < |checked|
    ensures ScanLines(lines, checked) == [checked[j]] + ScanLines(lines[1..], checked[..j] + checked[j + 1..])
  {
  }

  lemma InRemoved(checked: seq<Directive>, j: nat, d: Directive)
    requires j < |checked|
    ensures d in checked <==> d == checked[j] || d in checked[..j] + checked[j + 1..]
  {
    assert checked == checked[..j] + [checked[j]] + checked[j + 1..];
  }

  lemma OthersMiss(checked: seq<Directive>, line: string, x: Directive, y: Directive)
    requires Exclusive(checked) && x in checked && y in checked && MatchesLine(x, line) && x != y
    ensures !MatchesLine(y, line)
  {
  }

  /** What a line must start with for the scanner to record `d`. */
  function Key(d: Directive): string {
    d.Prefix() + (if IncludeSpace(d) then " " else "")
  }

  /** Two prefixes of one line: the shorter is a prefix of the longer. */
  lemma PrefixesOfOneLine(line: string, p: string, q: string)
    requires StartsWith(line, p) && StartsWith(line, q)
    ensures StartsWith(p, q) || StartsWith(q, p)
  {
    if |p| <= |q| {
      assert q[..|p|] == line[..|p|];
    } else {
      assert p[..|q|] == line[..|q|];
    }
  }

  /** `"//" + n + " "` starts with `"//" + m + " "` only for `n == m` when neither name
      holds a space. */
  lemma SpacedKeys(n: string, m: string)
    ensures ' ' !in n && ' ' !in m && StartsWith("//" + n + " ", "//" + m + " ") ==> n == m
  {
    var a, b := "//" + n + " ", "//" + m + " ";
    if ' ' !in n && ' ' !in m && StartsWith(a, b) {
      assert forall i :: 0 <= i < |b| ==> a[i] == b[i];
      assert b[2 + |m|] == ' ';
      assert forall i :: 0 <= i < |n| ==> a[2 + i] == n[i];
      assert a[2 + |m|] == ' ';
      assert |n| == |m|;
      assert forall i :: 0 <= i < |n| ==> n[i] == a[2 + i];
    }
  }

  /** The Quarkus key and a spaced key of a name without spaces are related by prefix only
      for the name `DEPS`. */
  lemma QuarkusKey(m: string)
    ensures ' ' !in m && (StartsWith(Key(QUARKUS_DEP), "//" + m + " ") || StartsWith("//" + m + " ", Key(QUARKUS_DEP)))
            ==> m == "DEPS"
  {
    var q := Key(QUARKUS_DEP);
    QuarkusKeyText();
    KeyAfterDeps(q, m);
  }

  lemma QuarkusKeyText()
    ensures var q := Key(QUARKUS_DEP);
      |q| > 6 && q[2] == 'D' && q[3] == 'E' && q[4] == 'P' && q[5] == 'S' && q[6] == ' '
  {
    var n := QUARKUS_DEP.name;
    assert |n| > 4 && n[0] == 'D' && n[1] == 'E' && n[2] == 'P' && n[3] == 'S' && n[4] == ' ';
    var p := QUARKUS_DEP.Prefix();
    assert Key(QUARKUS_DEP) == p + "" == p;
    assert p[2..][0] == p[2] && p[2..][1] == p[3] && p[2..][2] == p[4] && p[2..][3] == p[5] && p[2..][4] == p[6];
  }

  /** A key whose name part starts with `DEPS ` extends, or is extended by, a spaced key of a
      name without spaces only for the name `DEPS`. */
  lemma KeyAfterDeps(q: string, m: string)
    requires |q| > 6 && q[2] == 'D' && q[3] == 'E' && q[4] == 'P' && q[5] == 'S' && q[6] == ' '
    ensures ' ' !in m && (StartsWith(q, "//" + m + " ") || StartsWith("//" + m + " ", q)) ==> m == "DEPS"
  {
    var b := "//" + m + " ";
    if ' ' !in m && (StartsWith(q, b) || StartsWith(b, q)) {
      assert forall i :: 0 <= i < |b| && i < |q| ==> q[i] == b[i];
      assert b[2 + |m|] == ' ';
      assert forall i :: 0 <= i < |m| ==> b[2 + i] == m[i];
      assert |m| == 4;
      assert m == [q[2], q[3], q[4], q[5]];
    }
  }

  /** `(|name|, name[0])`, which already tells the looked-for directives apart. */
  function Code(name: string): (int, char) {
    (|name|, if name == [] then ' ' else name[0])
  }

  const CODES: seq<(int, char)> := [
    (4, 'J'), (13, 'J'), (15, 'C'), (11, 'D'), (3, 'C'), (3, 'G'), (9, 'J'), (8, 'M'),
    (12, 'J'), (15, 'R'), (14, 'N'), (6, 'K'), (6, 'G'), (4, 'M'), (6, 'M'), (7, 'P'), (23, 'D')]

  lemma CheckedCodes()
    ensures forall i :: 0 <= i < |CHECKED| ==> Code(CHECKED[i].name) == CODES[i]
    ensures forall i, j :: 0 <= i < j < |CODES| ==> CODES[i] != CODES[j]
  {
    FirstCodes();
    LastCodes();
    CodesDistinct();
  }

  lemma FirstCodes()
    ensures forall i :: 0 <= i < 8 ==> Code(CHECKED[i].name) == CODES[i]
  {
  }

  lemma LastCodes()
    ensures forall i :: 8 <= i < |CHECKED| ==> Code(CHECKED[i].name) == CODES[i]
  {
  }

  lemma CodesDistinct()
    ensures forall i, j :: 0 <= i < j < |CODES| ==> CODES[i] != CODES[j]
  {
  }

  /** The names the scanner looks for hold no space, apart from the Quarkus dependency, and
      none of them is `DEPS`. */
  lemma CheckedNames()
    ensures forall i :: 0 <= i < 16 ==> ' ' !in CHECKED[i].name && CHECKED[i].name != "DEPS"
    ensures CHECKED[16] == QUARKUS_DEP
  {
    NoSpaceInNames();
    CheckedCodes();
    assert Code("DEPS") == (4, 'D');
  }

  lemma NoSpaceInNames()
    ensures forall i :: 0 <= i < 16 ==> ' ' !in CHECKED[i].name
  {
    NoSpaceInFirstNames();
    NoSpaceInLastNames();
  }

  lemma NoSpaceInFirstNames()
    ensures forall i :: 0 <= i < 8 ==> ' ' !in CHECKED[i].name
  {
  }

  lemma NoSpaceInLastNames()
    ensures forall i :: 8 <= i < 16 ==> ' ' !in CHECKED[i].name
  {
  }

  /** Keys of looked-for directives that are related by prefix belong to the same directive. */
  lemma KeysDetermine()
    ensures forall i, j ::
      (0 <= i < |CHECKED| && 0 <= j < |CHECKED|
       && (StartsWith(Key(CHECKED[i]), Key(CHECKED[j])) || StartsWith(Key(CHECKED[j]), Key(CHECKED[i]))))
      ==> i == j
  {
    CheckedCodes();
    CheckedNames();
    forall n, m ensures ' ' !in n && ' ' !in m && StartsWith("//" + n + " ", "//" + m + " ") ==> n == m {
      SpacedKeys(n, m);
    }
    forall m ensures ' ' !in m && (StartsWith(Key(QUARKUS_DEP), "//" + m + " ") || StartsWith("//" + m + " ", Key(QUARKUS_DEP))) ==> m == "DEPS" {
      QuarkusKey(m);
    }
    assert forall i :: 0 <= i < 16 ==> IncludeSpace(CHECKED[i]) && Key(CHECKED[i]) == "//" + CHECKED[i].name + " ";
  }

  /** No line holds two of the directives the scanner looks for. */
  lemma CheckedExclusive()
    ensures Exclusive(CHECKED)
  {
    KeysDetermine();
    forall line, x, y | x in CHECKED && y in CHECKED && MatchesLine(x, line) && MatchesLine(y, line)
      ensures x == y
    {
      PrefixesOfOneLine(line, Key(x), Key(y));
      var i :| 0 <= i < |CHECKED| && CHECKED[i] == x;
      var j :| 0 <= j < |CHECKED| && CHECKED[j] == y;
    }
  }

  /** A directive the scanner looks for is found iff some line of the document holds it. */
  lemma ScanFinds(text: string, d: Directive)
    requires d in CHECKED
    ensures d in ScanLines(SplitLines(text), CHECKED) <==> AnyLineMatches(SplitLines(text), d)
  {
    CheckedExclusive();
    FoundIff(SplitLines(text), CHECKED, d);
  }

  /** DEPS, SOURCES, FILES and REPOS are never looked for, so they are never found. */
  lemma NeverFound(lines: seq<string>)
    ensures var found := ScanLines(lines, CHECKED);
      DEPS !in found && SOURCES !in found && FILES !in found && REPOS !in found
  {
    NeverLookedFor();
  }

  lemma NeverLookedFor()
    ensures DEPS !in CHECKED && SOURCES !in CHECKED && FILES !in CHECKED && REPOS !in CHECKED
  {
    NotChecked(DEPS);
    NotChecked(SOURCES);
    NotChecked(FILES);
    NotChecked(REPOS);
  }

  /** A directive whose code no looked-for directive has is not looked for. */
  lemma NotChecked(d: Directive)
    requires Code(d.name) !in CODES
    ensures d !in CHECKED
  {
    FirstCodes();
    LastCodes();
  }

  /** When `provideCompletionItems` offers a directive, given the directives found. */
  datatype Rule =
    | Always                       // repeatable: offered every time
    | Absent                       // single-use: offered while not found
    | InLanguage(language: string) // offered in a document of that language while not found
    | PairAbsent(other: Directive) // offered while neither it nor its alternative is found
    | Present(marker: Directive)   // offered once the marker is found

  predicate Holds(d: Directive, rule: Rule, languageId: string, found: seq<Directive>) {
    match rule
    case Always => true
    case Absent => d !in found
    case InLanguage(language) => languageId == language && d !in found
    case PairAbsent(other) => d !in found && other !in found
    case Present(marker) => marker in found
  }

  /** How many directives `provideCompletionItems` considers. */
  const OFFER_COUNT: nat := 21

  /** The `k`-th directive `provideCompletionItems` considers, with its rule. */
  function OfferEntry(k: nat): (Directive, Rule)
    requires k < OFFER_COUNT
  {
    match k
    case 0 => (JAVA, Absent)
    case 1 => (DEPS, Always)
    case 2 => (GROOVY, InLanguage("groovy"))
    case 3 => (KOTLIN, InLanguage("kotlin"))
    case 4 => (GAV, Absent)
    case 5 => (MODULE, Absent)
    case 6 => (MAIN, Absent)
    case 7 => (SOURCES, Always)
    case 8 => (FILES, Always)
    case 9 => (REPOS, Always)
    case 10 => (DESCRIPTION, Always)
    case 11 => (MANIFEST, Absent)
    case 12 => (JAVAC_OPTIONS, PairAbsent(COMPILE_OPTIONS))
    case 13 => (JAVA_OPTIONS, PairAbsent(RUNTIME_OPTIONS))
    case 14 => (COMPILE_OPTIONS, PairAbsent(JAVAC_OPTIONS))
    case 15 => (RUNTIME_OPTIONS, PairAbsent(JAVA_OPTIONS))
    case 16 => (JAVAAGENT, Absent)
    case 17 => (CDS, Absent)
    case 18 => (NATIVE_OPTIONS, Absent)
    case 19 => (PREVIEW, Absent)
    case _ => (QUARKUS_CONFIG, Present(QUARKUS_DEP))
  }

  /** The directives of the first `k` entries of the offers whose rule holds, in order. */
  function Offered(k: nat, languageId: string, found: seq<Directive>): (r: seq<Directive>)
    requires k <= OFFER_COUNT
    ensures |r| <= k
    ensures forall d :: d in r ==> exists i :: 0 <= i < k && OfferedBy(i, languageId, found, d)
  {
    if k == 0 then []
    else
      var (d, rule) := OfferEntry(k - 1);
      var r := Offered(k - 1, languageId, found) + (if Holds(d, rule, languageId, found) then [d] else []);
      assert Holds(d, rule, languageId, found) ==> OfferedBy(k - 1, languageId, found, d);
      r
  }

  /** `getCompletion(d, range)` for each directive of `ds`, in order. */
  function CompletionsFor(ds: seq<Directive>, range: Range): (r: seq<CompletionItem>)
    ensures |r| == |ds|
    ensures forall i :: 0 <= i < |ds| ==> r[i] == GetCompletion(ds[i], Some(range), None)
  {
    if ds == [] then []
    else CompletionsFor(ds[..|ds| - 1], range) + [GetCompletion(ds[|ds| - 1], Some(range), None)]
  }

  /** A directive is offered exactly when one of the entries considered names it and that
      entry's rule holds. */
  lemma {:induction false} OfferedIff(k: nat, languageId: string, found: seq<Directive>, d: Directive)
    requires k <= OFFER_COUNT
    ensures d in Offered(k, languageId, found)
        <==> exists i :: 0 <= i < k && OfferedBy(i, languageId, found, d)
  {
    if k > 0 {
      OfferedIff(k - 1, languageId, found, d);
      OfferedStep(k, languageId, found, d);
    }
  }

  /** Entry `i` names `d` and its rule holds. */
  predicate OfferedBy(i: nat, languageId: string, found: seq<Directive>, d: Directive)
    requires i < OFFER_COUNT
  {
    OfferEntry(i).0 == d && Holds(d, OfferEntry(i).1, languageId, found)
  }

  lemma OfferedStep(k: nat, languageId: string, found: seq<Directive>, d: Directive)
    requires 0 < k <= OFFER_COUNT
    ensures d in Offered(k, languageId, found)
        <==> d in Offered(k - 1, languageId, found) || OfferedBy(k - 1, languageId, found, d)
  {
  }

  /** Where a directive stands among those considered, told by the length and first letter
      of its name; -1 for any other code. */
  function OfferIndex(d: Directive): int {
    var c := Code(d.name);
      if c == (4, 'J') then 0
      else if c == (4, 'D') then 1
      else if c == (6, 'G') then 2
      else if c == (6, 'K') then 3
      else if c == (3, 'G') then 4
      else if c == (6, 'M') then 5
      else if c == (4, 'M') then 6
      else if c == (7, 'S') then 7
      else if c == (5, 'F') then 8
      else if c == (5, 'R') then 9
      else if c == (11, 'D') then 10
      else if c == (8, 'M') then 11
      else if c == (13, 'J') then 12
      else if c == (12, 'J') then 13
      else if c == (15, 'C') then 14
      else if c == (15, 'R') then 15
      else if c == (9, 'J') then 16
      else if c == (3, 'C') then 17
      else if c == (14, 'N') then 18
      else if c == (7, 'P') then 19
      else if c == (9, 'Q') then 20
      else -1
  }

  lemma OfferIndexOf(i: nat)
    requires i < OFFER_COUNT
    ensures OfferIndex(OfferEntry(i).0) == i
  {
    if i < 7 {
      assert i == 0 || i == 1 || i == 2 || i == 3 || i == 4 || i == 5 || i == 6;
    } else if i < 14 {
      assert i == 7 || i == 8 || i == 9 || i == 10 || i == 11 || i == 12 || i == 13;
    } else {
      assert i == 14 || i == 15 || i == 16 || i == 17 || i == 18 || i == 19 || i == 20;
    }
  }

  /** No directive is considered twice. */
  lemma OfferEntriesDistinct(i: nat, j: nat)
    requires i < OFFER_COUNT && j < OFFER_COUNT && OfferEntry(i).0 == OfferEntry(j).0
    ensures i == j
  {
    OfferIndexOf(i);
    OfferIndexOf(j);
  }

  /** Every directive considered is offered exactly when its own rule holds. */
  lemma OfferedExactly(languageId: string, found: seq<Directive>, i: nat)
    requires i < OFFER_COUNT
    ensures var (d, rule) := OfferEntry(i);
      d in Offered(OFFER_COUNT, languageId, found) <==> Holds(d, rule, languageId, found)
  {
    var (d, rule) := OfferEntry(i);
    OfferedIff(OFFER_COUNT, languageId, found, d);
    if d in Offered(OFFER_COUNT, languageId, found) {
      var j :| 0 <= j < OFFER_COUNT && OfferedBy(j, languageId, found, d);
      OfferEntriesDistinct(i, j);
    } else {
      assert !OfferedBy(i, languageId, found, d);
    }
  }

  /** DEPS, SOURCES, FILES, REPOS and DESCRIPTION are offered whatever the document holds. */
  lemma RepeatableAlwaysOffered(languageId: string, found: seq<Directive>)
    ensures var offered := Offered(OFFER_COUNT, languageId, found);
      DEPS in offered && SOURCES in offered && FILES in offered && REPOS in offered && DESCRIPTION in offered
  {
    OfferedExactly(languageId, found, 1);
    OfferedExactly(languageId, found, 7);
    OfferedExactly(languageId, found, 8);
    OfferedExactly(languageId, found, 9);
    OfferedExactly(languageId, found, 10);
  }

  /** The compiler options JAVAC_OPTIONS and COMPILE_OPTIONS are each offered exactly when
      neither is present, and so are the runtime options JAVA_OPTIONS and RUNTIME_OPTIONS. */
  lemma OptionPairsOffered(languageId: string, found: seq<Directive>)
    ensures var offered := Offered(OFFER_COUNT, languageId, found);
      && (JAVAC_OPTIONS in offered <==> JAVAC_OPTIONS !in found && COMPILE_OPTIONS !in found)
      && (COMPILE_OPTIONS in offered <==> JAVAC_OPTIONS !in found && COMPILE_OPTIONS !in found)
      && (JAVA_OPTIONS in offered <==> JAVA_OPTIONS !in found && RUNTIME_OPTIONS !in found)
      && (RUNTIME_OPTIONS in offered <==> JAVA_OPTIONS !in found && RUNTIME_OPTIONS !in found)
  {
    OfferedExactly(languageId, found, 12);
    OfferedExactly(languageId, found, 13);
    OfferedExactly(languageId, found, 14);
    OfferedExactly(languageId, found, 15);
  }

  /** GROOVY and KOTLIN are offered only in a document of their language that lacks them, and
      the Quarkus configuration exactly when a Quarkus dependency is present. */
  lemma LanguageAndQuarkusOffered(languageId: string, found: seq<Directive>)
    ensures var offered := Offered(OFFER_COUNT, languageId, found);
      && (GROOVY in offered <==> languageId == "groovy" && GROOVY !in found)
      && (KOTLIN in offered <==> languageId == "kotlin" && KOTLIN !in found)
      && (QUARKUS_CONFIG in offered <==> QUARKUS_DEP in found)
  {
    OfferedExactly(languageId, found, 2);
    OfferedExactly(languageId, found, 3);
    OfferedExactly(languageId, found, 20);
  }

  /** A single-use directive is offered exactly when it is absent. */
  lemma SingleUseOffered(languageId: string, found: seq<Directive>)
    ensures forall i :: 0 <= i < OFFER_COUNT && OfferEntry(i).1 == Absent ==>
      (OfferEntry(i).0 in Offered(OFFER_COUNT, languageId, found) <==> OfferEntry(i).0 !in found)
  {
    forall i | 0 <= i < OFFER_COUNT && OfferEntry(i).1 == Absent
      ensures OfferEntry(i).0 in Offered(OFFER_COUNT, languageId, found) <==> OfferEntry(i).0 !in found
    {
      OfferedExactly(languageId, found, i);
    }
  }

  /** In terms of the document's lines: a single-use directive is offered exactly when no line
      holds it, the compiler options exactly when no line holds either of them, and the
      Quarkus configuration exactly when a line starts with a Quarkus dependency. */
  lemma OffersFollowDocument(languageId: string, text: string)
    ensures var lines := SplitLines(text);
      var offered := Offered(OFFER_COUNT, languageId, ScanLines(lines, CHECKED));
      && (forall i :: 0 <= i < OFFER_COUNT && OfferEntry(i).1 == Absent ==>
            (OfferEntry(i).0 in offered <==> !AnyLineMatches(lines, OfferEntry(i).0)))
      && (JAVAC_OPTIONS in offered <==> !AnyLineMatches(lines, JAVAC_OPTIONS) && !AnyLineMatches(lines, COMPILE_OPTIONS))
      && (JAVA_OPTIONS in offered <==> !AnyLineMatches(lines, JAVA_OPTIONS) && !AnyLineMatches(lines, RUNTIME_OPTIONS))
      && (QUARKUS_CONFIG in offered <==> AnyLineMatches(lines, QUARKUS_DEP))
  {
    var lines := SplitLines(text);
    var found := ScanLines(lines, CHECKED);
    SingleUseOffered(languageId, found);
    OptionPairsOffered(languageId, found);
    LanguageAndQuarkusOffered(languageId, found);
    forall i | 0 <= i < OFFER_COUNT && OfferEntry(i).1 == Absent
      ensures OfferEntry(i).0 in found <==> AnyLineMatches(lines, OfferEntry(i).0)
    {
      SingleUseChecked(i);
      ScanFinds(text, OfferEntry(i).0);
    }
    ScanFinds(text, JAVAC_OPTIONS);
    ScanFinds(text, COMPILE_OPTIONS);
    ScanFinds(text, JAVA_OPTIONS);
    ScanFinds(text, RUNTIME_OPTIONS);
    ScanFinds(text, QUARKUS_DEP);
  }

  /** The scanner looks for every single-use directive. */
  lemma SingleUseChecked(i: nat)
    requires i < OFFER_COUNT && OfferEntry(i).1 == Absent
    ensures OfferEntry(i).0 in CHECKED
  {
    if i < 10 {
      assert i == 0 || i == 4 || i == 5 || i == 6;
    } else {
      assert i == 11 || i == 16 || i == 17 || i == 18 || i == 19;
    }
  }

  /** The item `provideCompletionItems` puts first on the first line: the JBang header. */
  function HeaderItem(range: Range): (item: CompletionItem)
    ensures item.labelText == HEADER.name && item.kind == TextItem && item.insertText.None?
    ensures item.detail == Some(HEADER.description) && item.range == Some(range)
  {
    CompletionItem(HEADER.name, TextItem, None, Some(HEADER.description), Some(range), None, None, None)
  }

  /** `if (offer) items.push(getCompletion(d, range))`, as the `k`-th of the offers. */
  method PushIf(items: seq<CompletionItem>, offer: bool, d: Directive, range: Range,
                ghost header: seq<CompletionItem>, ghost languageId: string, ghost found: seq<Directive>, ghost k: nat)
    returns (r: seq<CompletionItem>)
    requires k < OFFER_COUNT && d == OfferEntry(k).0 && offer == Holds(d, OfferEntry(k).1, languageId, found)
    requires items == header + CompletionsFor(Offered(k, languageId, found), range)
    ensures r == header + CompletionsFor(Offered(k + 1, languageId, found), range)
  {
    ghost var before := Offered(k, languageId, found);
    r := items;
    if offer {
      r := r + [GetCompletion(d, Some(range), None)];
      assert (before + [d])[..|before|] == before;
      AppendAssoc(header, CompletionsFor(before, range), [GetCompletion(d, Some(range), None)]);
    } else {
      assert before + [] == before;
    }
  }

  /** The offers made so far: `header`, then the completions of the first `k` entries of
      the offers whose rule holds. */
  ghost predicate OfferedUpTo(items: seq<CompletionItem>, header: seq<CompletionItem>, k: nat,
                              languageId: string, found: seq<Directive>, range: Range)
    requires k <= OFFER_COUNT
  {
    items == header + CompletionsFor(Offered(k, languageId, found), range)
  }

  /** The offers of JAVA, DEPS, GROOVY and KOTLIN. */
  method OfferJavaAndLanguage(items: seq<CompletionItem>, scanner: DirectiveScanner, languageId: string, range: Range,
                              ghost header: seq<CompletionItem>)
    returns (r: seq<CompletionItem>)
    requires OfferedUpTo(items, header, 0, languageId, scanner.directives, range)
    ensures OfferedUpTo(r, header, 4, languageId, scanner.directives, range)
  {
    ghost var found := scanner.directives;
    assert OfferEntry(0) == (JAVA, Absent);
    assert OfferEntry(1) == (DEPS, Always);
    assert OfferEntry(2) == (GROOVY, InLanguage("groovy"));
    assert OfferEntry(3) == (KOTLIN, InLanguage("kotlin"));
    r := PushIf(items, !scanner.Found(JAVA), JAVA, range, header, languageId, found, 0);
    r := PushIf(r, true, DEPS, range, header, languageId, found, 1);
    r := PushIf(r, languageId == "groovy" && !scanner.Found(GROOVY), GROOVY, range, header, languageId, found, 2);
    r := PushIf(r, languageId == "kotlin" && !scanner.Found(KOTLIN), KOTLIN, range, header, languageId, found, 3);
  }

  /** The offers of GAV, MODULE and MAIN. */
  method OfferProjectDirectives(items: seq<CompletionItem>, scanner: DirectiveScanner, languageId: string, range: Range,
                                ghost header: seq<CompletionItem>)
    returns (r: seq<CompletionItem>)
    requires OfferedUpTo(items, header, 4, languageId, scanner.directives, range)
    ensures OfferedUpTo(r, header, 7, languageId, scanner.directives, range)
  {
    ghost var found := scanner.directives;
    assert OfferEntry(4) == (GAV, Absent);
    assert OfferEntry(5) == (MODULE, Absent);
    assert OfferEntry(6) == (MAIN, Absent);
    r := PushIf(items, !scanner.Found(GAV), GAV, range, header, languageId, found, 4);
    r := PushIf(r, !scanner.Found(MODULE), MODULE, range, header, languageId, found, 5);
    r := PushIf(r, !scanner.Found(MAIN), MAIN, range, header, languageId, found, 6);
  }

  /** The offers of SOURCES, FILES, REPOS, DESCRIPTION and MANIFEST. */
  method OfferResources(items: seq<CompletionItem>, scanner: DirectiveScanner, languageId: string, range: Range,
                        ghost header: seq<CompletionItem>)
    returns (r: seq<CompletionItem>)
    requires OfferedUpTo(items, header, 7, languageId, scanner.directives, range)
    ensures OfferedUpTo(r, header, 12, languageId, scanner.directives, range)
  {
    ghost var found := scanner.directives;
    assert OfferEntry(7) == (SOURCES, Always);
    assert OfferEntry(8) == (FILES, Always);
    assert OfferEntry(9) == (REPOS, Always);
    assert OfferEntry(10) == (DESCRIPTION, Always);
    assert OfferEntry(11) == (MANIFEST, Absent);
    r := PushIf(items, true, SOURCES, range, header, languageId, found, 7);
    r := PushIf(r, true, FILES, range, header, languageId, found, 8);
    r := PushIf(r, true, REPOS, range, header, languageId, found, 9);
    r := PushIf(r, true, DESCRIPTION, range, header, languageId, found, 10);
    r := PushIf(r, !scanner.Found(MANIFEST), MANIFEST, range, header, languageId, found, 11);
  }

  /** The offers of the compiler and runtime option pairs. */
  method OfferOptionPairs(items: seq<CompletionItem>, scanner: DirectiveScanner, languageId: string, range: Range,
                          ghost header: seq<CompletionItem>)
    returns (r: seq<CompletionItem>)
    requires OfferedUpTo(items, header, 12, languageId, scanner.directives, range)
    ensures OfferedUpTo(r, header, 16, languageId, scanner.directives, range)
  {
    r := OfferJavaOptionPairs(items, scanner, languageId, range, header);
    r := OfferCompilerOptionPairs(r, scanner, languageId, range, header);
  }

  /** JAVAC_OPTIONS and JAVA_OPTIONS, each while neither it nor its alternative is found. */
  method OfferJavaOptionPairs(items: seq<CompletionItem>, scanner: DirectiveScanner, languageId: string, range: Range,
                              ghost header: seq<CompletionItem>)
    returns (r: seq<CompletionItem>)
    requires OfferedUpTo(items, header, 12, languageId, scanner.directives, range)
    ensures OfferedUpTo(r, header, 14, languageId, scanner.directives, range)
  {
    ghost var found := scanner.directives;
    assert OfferEntry(12) == (JAVAC_OPTIONS, PairAbsent(COMPILE_OPTIONS));
    assert OfferEntry(13) == (JAVA_OPTIONS, PairAbsent(RUNTIME_OPTIONS));
    r := PushIf(items, !scanner.Found(JAVAC_OPTIONS) && !scanner.Found(COMPILE_OPTIONS), JAVAC_OPTIONS, range,
                header, languageId, found, 12);
    r := PushIf(r, !scanner.Found(JAVA_OPTIONS) && !scanner.Found(RUNTIME_OPTIONS), JAVA_OPTIONS, range,
                header, languageId, found, 13);
  }

  /** COMPILE_OPTIONS and RUNTIME_OPTIONS, each while neither it nor its alternative is found. */
  method OfferCompilerOptionPairs(items: seq<CompletionItem>, scanner: DirectiveScanner, languageId: string, range: Range,
                                  ghost header: seq<CompletionItem>)
    returns (r: seq<CompletionItem>)
    requires OfferedUpTo(items, header, 14, languageId, scanner.directives, range)
    ensures OfferedUpTo(r, header, 16, languageId, scanner.directives, range)
  {
    ghost var found := scanner.directives;
    assert OfferEntry(14) == (COMPILE_OPTIONS, PairAbsent(JAVAC_OPTIONS));
    assert OfferEntry(15) == (RUNTIME_OPTIONS, PairAbsent(JAVA_OPTIONS));
    r := PushIf(items, !scanner.Found(COMPILE_OPTIONS) && !scanner.Found(JAVAC_OPTIONS), COMPILE_OPTIONS, range,
                header, languageId, found, 14);
    r := PushIf(r, !scanner.Found(RUNTIME_OPTIONS) && !scanner.Found(JAVA_OPTIONS), RUNTIME_OPTIONS, range,
                header, languageId, found, 15);
  }

  /** The offers of JAVAAGENT, CDS, NATIVE_OPTIONS and PREVIEW. */
  method OfferBuildOptions(items: seq<CompletionItem>, scanner: DirectiveScanner, languageId: string, range: Range,
                           ghost header: seq<CompletionItem>)
    returns (r: seq<CompletionItem>)
    requires OfferedUpTo(items, header, 16, languageId, scanner.directives, range)
    ensures OfferedUpTo(r, header, 20, languageId, scanner.directives, range)
  {
    ghost var found := scanner.directives;
    assert OfferEntry(16) == (JAVAAGENT, Absent);
    assert OfferEntry(17) == (CDS, Absent);
    assert OfferEntry(18) == (NATIVE_OPTIONS, Absent);
    assert OfferEntry(19) == (PREVIEW, Absent);
    r := PushIf(items, !scanner.Found(JAVAAGENT), JAVAAGENT, range, header, languageId, found, 16);
    r := PushIf(r, !scanner.Found(CDS), CDS, range, header, languageId, found, 17);
    r := PushIf(r, !scanner.Found(NATIVE_OPTIONS), NATIVE_OPTIONS, range, header, languageId, found, 18);
    r := PushIf(r, !scanner.Found(PREVIEW), PREVIEW, range, header, languageId, found, 19);
  }

  /** The offer of the Quarkus configuration, the last one. */
  method OfferQuarkusConfig(items: seq<CompletionItem>, scanner: DirectiveScanner, languageId: string, range: Range,
                            ghost header: seq<CompletionItem>)
    returns (r: seq<CompletionItem>)
    requires OfferedUpTo(items, header, 20, languageId, scanner.directives, range)
    ensures OfferedUpTo(r, header, OFFER_COUNT, languageId, scanner.directives, range)
  {
    ghost var found := scanner.directives;
    assert OfferEntry(20) == (QUARKUS_CONFIG, Present(QUARKUS_DEP));
    r := PushIf(items, scanner.Found(QUARKUS_DEP), QUARKUS_CONFIG, range, header, languageId, found, 20);
  }

  /** `provideCompletionItems(document, position)` for a document with language `languageId`
      and text `text`: the header on the first line, then the completion of every directive
      whose offer rule holds for what the scanner found, in a fixed order, each replacing the
      line up to the cursor. */
  method ProvideCompletionItems(languageId: string, text: string, position: Position) returns (list: CompletionList)
    ensures var range := Range(Position(position.line, 0), position);
      list.items == (if position.line == 0 then [HeaderItem(range)] else [])
                    + CompletionsFor(Offered(OFFER_COUNT, languageId, ScanLines(SplitLines(text), CHECKED)), range)
    ensures !list.isIncomplete
  {
    var items: seq<CompletionItem> := [];
    var range := Range(Position(position.line, 0), position);
    if position.line == 0 {
      items := items + [HeaderItem(range)];
    }
    ghost var header := items;
    assert header == if position.line == 0 then [HeaderItem(range)] else [];
    var scanner := new DirectiveScanner();
    scanner.Scan(text);
    assert scanner.directives == ScanLines(SplitLines(text), CHECKED);
    assert OfferedUpTo(items, header, 0, languageId, scanner.directives, range);
    items := OfferJavaAndLanguage(items, scanner, languageId, range, header);
    items := OfferProjectDirectives(items, scanner, languageId, range, header);
    items := OfferResources(items, scanner, languageId, range, header);
    items := OfferOptionPairs(items, scanner, languageId, range, header);
    items := OfferBuildOptions(items, scanner, languageId, range, header);
    items := OfferQuarkusConfig(items, scanner, languageId, range, header);
    list := CompletionList(items, false);
  }
}
