/** The run, debug and synchronize lenses of a JBang script: one pass over the lines finds
    the first directive line, the first type declaration and the `main` method, and the
    lenses are placed on them. */
module CodeLensProvider {
  import opened Wrappers
  import opened Text
  import opened Editor
  import JBangUtils

  const SYNCHRONIZE: string := "jbang.synchronize"
  const RUN: string := "jbang.script.run"
  const DEBUG: string := "jbang.script.debug"
  const MAIN_SIGNATURE: string := "public static void main"
  const TYPE_KEYWORDS: seq<string> := ["class", "interface", "enum", "record"]

  /** A lens: where it sits and the command it runs on the document. */
  datatype Lens = Lens(range: Range, command: string)

  /** `singleCommentRegexp.test(line)`, `/^\s*(\/\/).*$/`: after the leading blanks comes
      `//`, and no line terminator follows. */
  predicate IsComment(line: string) {
    var t := TrimStart(line);
    StartsWith(t, "//") && NoLineTerminator(t[2..])
  }

  /** At `p` starts a run of blanks that ends at `j`, after which no line terminator comes. */
  predicate BlanksThenRest(line: string, p: nat, j: nat) {
    && p < j <= |line|
    && (forall k | p <= k < j :: IsWhitespace(line[k]))
    && NoLineTerminator(line[j..])
  }

  /** The keyword `TYPE_KEYWORDS[n]` sits at `i`, has no line terminator before it and is
      followed by blanks and the rest of the line. */
  predicate KeywordAt(line: string, i: nat, n: nat) {
    && n < |TYPE_KEYWORDS|
    && i + |TYPE_KEYWORDS[n]| <= |line|
    && line[i..i + |TYPE_KEYWORDS[n]|] == TYPE_KEYWORDS[n]
    && NoLineTerminator(line[..i])
    && BlanksFrom(line, i + |TYPE_KEYWORDS[n]|)
  }

  /** At `p` starts a run of blanks followed by the rest of the line. */
  predicate BlanksFrom(line: string, p: nat) {
    exists j | 0 <= j <= |line| :: BlanksThenRest(line, p, j)
  }

  /** `typeRegexp.test(line)`, `/^.*(class|interface|enum|record)\s+.*$/`. */
  predicate DeclaresType(line: string) {
    exists i, n | 0 <= i <= |line| && 0 <= n < |TYPE_KEYWORDS| :: KeywordAt(line, i, n)
  }

  /** A keyword followed by a blank in a line without line terminators declares a type,
      whatever precedes it: `subclass x` counts. */
  lemma KeywordDeclares(line: string, i: nat, n: nat)
    requires n < |TYPE_KEYWORDS| && NoLineTerminator(line)
    requires i + |TYPE_KEYWORDS[n]| < |line| && line[i..i + |TYPE_KEYWORDS[n]|] == TYPE_KEYWORDS[n]
    requires IsWhitespace(line[i + |TYPE_KEYWORDS[n]|])
    ensures DeclaresType(line)
  {
    var p := i + |TYPE_KEYWORDS[n]|;
    assert BlanksThenRest(line, p, p + 1);
    assert KeywordAt(line, i, n);
  }

  /** A line without a blank declares no type. */
  lemma NoBlankNoType(line: string)
    requires forall k :: 0 <= k < |line| ==> !IsWhitespace(line[k])
    ensures !DeclaresType(line)
  {
    forall i, n | 0 <= i <= |line| && 0 <= n < |TYPE_KEYWORDS| ensures !KeywordAt(line, i, n) {
      var p := i + |TYPE_KEYWORDS[n]|;
      forall j | 0 <= j <= |line| ensures !BlanksThenRest(line, p, j) {
        if p < j {
          assert !IsWhitespace(line[p]);
        }
      }
    }
  }

  /** Every known directive line without line terminators is also a comment line. */
  lemma DirectiveIsComment(line: string)
    requires JBangUtils.IsJBangDirective(line) && NoLineTerminator(line)
    ensures IsComment(line)
  {
    JBangUtils.DirectiveShape(line);
    assert TrimStart(line) == line;
    assert line[..2] == "//";
  }

  /** What the loop tests on one line: whether it is a known directive, a comment, a type
      declaration, where `public static void main` starts in it (-1 when nowhere), and its
      length. */
  datatype Kind = Kind(directive: bool, comment: bool, declaresType: bool, mainIdx: int, length: nat)

  function KindOf(line: string): Kind {
    Kind(JBangUtils.IsJBangDirective(line), IsComment(line), DeclaresType(line), IndexOf(line, MAIN_SIGNATURE), |line|)
  }

  /** The tests for every line of a document. */
  function Kinds(lines: seq<string>): (r: seq<Kind>)
    ensures |r| == |lines| && forall i :: 0 <= i < |lines| ==> r[i] == KindOf(lines[i])
  {
    seq(|lines|, i requires 0 <= i < |lines| => KindOf(lines[i]))
  }

  /** The full range of line `i`. */
  function LineRange(i: nat, k: Kind): Range {
    Range(Position(i, 0), Position(i, k.length))
  }

  /** What the scan has found: `firstDirectivePosition`, `typePosition`, `mainPosition`. */
  datatype Scan = Scan(directive: Option<Range>, typ: Option<Range>, main: Option<Range>)

  /** One turn of the loop on line `i`, before `main` is found: the first directive line is
      recorded and skipped, comment lines are skipped, the first type line is recorded, and
      a `main` line is recorded. */
  function Step(s: Scan, i: nat, k: Kind): Scan {
    if s.directive.None? && k.directive then s.(directive := Some(LineRange(i, k)))
    else if k.comment then s
    else CodeStep(s, i, k)
  }

  /** The step on a line that is neither the first directive nor a comment. */
  function CodeStep(s: Scan, i: nat, k: Kind): Scan {
    var s' := if s.typ.None? && k.declaresType then s.(typ := Some(LineRange(i, k))) else s;
    if k.mainIdx >= 0 then s'.(main := Some(Range(Position(i, k.mainIdx), Position(i, k.length)))) else s'
  }

  /** The scan of the lines: each line in turn until `main` is found. Every anchor found
      lies on a line already scanned. */
  function ScanKinds(kinds: seq<Kind>): (s: Scan)
    ensures LineOf(s.directive) < |kinds| && LineOf(s.typ) < |kinds| && LineOf(s.main) < |kinds|
  {
    if kinds == [] then Scan(None, None, None)
    else
      var s := ScanKinds(kinds[..|kinds| - 1]);
      if s.main.Some? then s else Step(s, |kinds| - 1, kinds[|kinds| - 1])
  }

  /** Once `main` is found, the lines after it change nothing. */
  lemma {:induction false} StopsAtMain(kinds: seq<Kind>, k: nat)
    requires k <= |kinds| && ScanKinds(kinds[..k]).main.Some?
    ensures ScanKinds(kinds) == ScanKinds(kinds[..k])
    decreases |kinds| - k
  {
    if k < |kinds| {
      assert kinds[..|kinds| - 1][..k] == kinds[..k];
      StopsAtMain(kinds[..|kinds| - 1], k);
    } else {
      assert kinds[..k] == kinds;
    }
  }

  /** The loop of `provideCodeLenses`: it stops at the `main` line. */
  method ScanDocument(lines: seq<string>) returns (s: Scan)
    ensures s == ScanKinds(Kinds(lines))
  {
    ghost var kinds := Kinds(lines);
    s := Scan(None, None, None);
    var i := 0;
    while i < |lines|
      invariant 0 <= i <= |lines|
      invariant s == ScanKinds(kinds[..i]) && s.main.None?
    {
      ScanOneMore(kinds, i);
      s := Turn(s, i, lines[i]);
      if s.main.Some? {
        StopsAtMain(kinds, i + 1);
        return;
      }
      i := i + 1;
    }
    assert kinds[..i] == kinds;
  }

  /** Scanning one more line, while `main` is not found, takes one step. */
  lemma ScanOneMore(kinds: seq<Kind>, i: nat)
    requires i < |kinds| && ScanKinds(kinds[..i]).main.None?
    ensures ScanKinds(kinds[..i + 1]) == Step(ScanKinds(kinds[..i]), i, kinds[i])
  {
    assert kinds[..i + 1][..i] == kinds[..i];
  }

  /** The body of the loop on line `i`, `line`, while `main` is not found; a `continue`
      returns the scan as it stands. */
  method Turn(s: Scan, i: nat, line: string) returns (t: Scan)
    ensures t == Step(s, i, KindOf(line))
  {
    t := s;
    if s.directive.None? && JBangUtils.IsJBangDirective(line) {
      t := t.(directive := Some(Range(Position(i, 0), Position(i, |line|))));
      return;
    }
    if IsComment(line) {
      return;
    }
    t := CodeTurn(s, i, line);
  }

  /** The rest of the loop body, on a line that is neither the first directive nor a
      comment. */
  method CodeTurn(s: Scan, i: nat, line: string) returns (t: Scan)
    ensures t == CodeStep(s, i, KindOf(line))
  {
    t := s;
    if s.typ.None? && DeclaresType(line) {
      t := t.(typ := Some(Range(Position(i, 0), Position(i, |line|))));
    }
    var mainIdx := IndexOf(line, MAIN_SIGNATURE);
    if mainIdx >= 0 {
      t := t.(main := Some(Range(Position(i, mainIdx), Position(i, |line|))));
    }
  }

  /** The line at which a scan result lies. */
  function LineOf(r: Option<Range>): int {
    if r.Some? then r.value.start.line else -1
  }

  /** The directive lens anchor is the full range of the first directive line. */
  lemma {:induction false} DirectiveIsFirst(kinds: seq<Kind>)
    ensures var d := ScanKinds(kinds).directive;
      d.Some? ==> (exists i :: 0 <= i < |kinds| && d.value == LineRange(i, kinds[i]) && kinds[i].directive
                               && forall e :: 0 <= e < i ==> !kinds[e].directive)
  {
    if kinds != [] {
      var n := |kinds| - 1;
      var init := kinds[..n];
      DirectiveIsFirst(init);
      NoDirectiveYet(init);
      var s := ScanKinds(init);
      if s.directive.Some? {
        var i :| 0 <= i < |init| && s.directive.value == LineRange(i, init[i]) && init[i].directive
                 && forall e :: 0 <= e < i ==> !init[e].directive;
        assert kinds[i] == init[i];
        assert forall e :: 0 <= e < i ==> kinds[e] == init[e];
      } else if s.main.None? {
        assert forall e :: 0 <= e < n ==> kinds[e] == init[e];
      }
    }
  }

  /** Until the first directive line or `main` is found, no line scanned was a directive. */
  lemma {:induction false} NoDirectiveYet(kinds: seq<Kind>)
    ensures var s := ScanKinds(kinds);
      s.directive.None? && s.main.None? ==> forall e :: 0 <= e < |kinds| ==> !kinds[e].directive
  {
    if kinds != [] {
      var n := |kinds| - 1;
      var init := kinds[..n];
      NoDirectiveYet(init);
      assert forall e :: 0 <= e < n ==> kinds[e] == init[e];
    }
  }

  /** A line the scan treats as code: no comment, and not the first directive line. */
  predicate Eligible(kinds: seq<Kind>, s: Scan, e: int)
    requires 0 <= e < |kinds|
  {
    !kinds[e].comment && LineOf(s.directive) != e
  }

  /** The type anchor is the full range of the first eligible line that declares a type. */
  lemma TypeLine(kinds: seq<Kind>)
    ensures var s := ScanKinds(kinds);
      s.typ.Some? ==> (exists t :: 0 <= t < |kinds| && s.typ.value == LineRange(t, kinds[t])
                                   && kinds[t].declaresType && Eligible(kinds, s, t)
                                   && forall e :: 0 <= e < t && Eligible(kinds, s, e) ==> !kinds[e].declaresType)
  {
    var s := ScanKinds(kinds);
    TypeLineFound(kinds);
    if s.typ.Some? {
      TypeLineKind(kinds);
      var t :| 0 <= t < |kinds| && s.typ.value == LineRange(t, kinds[t]) && kinds[t].declaresType && Eligible(kinds, s, t);
      assert LineOf(s.typ) == t;
      MainLine(kinds);
      assert s.main.Some? ==> t <= LineOf(s.main);
    }
  }

  /** The type anchor lies on an eligible line that declares a type. */
  lemma {:induction false} TypeLineKind(kinds: seq<Kind>)
    ensures var s := ScanKinds(kinds);
      s.typ.Some? ==> (exists t :: 0 <= t < |kinds| && s.typ.value == LineRange(t, kinds[t])
                                   && kinds[t].declaresType && Eligible(kinds, s, t))
  {
    if kinds != [] {
      var n := |kinds| - 1;
      var init := kinds[..n];
      TypeLineKind(init);
      var s := ScanKinds(init);
      if s.typ.Some? {
        var t :| 0 <= t < |init| && s.typ.value == LineRange(t, init[t]) && init[t].declaresType && Eligible(init, s, t);
        assert kinds[t] == init[t];
      }
    }
  }

  /** Every eligible line that declares a type, up to the `main` line, finds the type anchor
      at it or before it: so no such line is passed over, and the anchor is missing only
      when there is none. */
  lemma {:induction false} TypeLineFound(kinds: seq<Kind>)
    ensures var s := ScanKinds(kinds);
      forall e :: 0 <= e < |kinds| && (s.main.None? || e <= LineOf(s.main)) && Eligible(kinds, s, e) && kinds[e].declaresType
        ==> s.typ.Some? && LineOf(s.typ) <= e
  {
    if kinds != [] {
      var n := |kinds| - 1;
      var init := kinds[..n];
      TypeLineFound(init);
      var s0 := ScanKinds(init);
      var s := ScanKinds(kinds);
      forall e | 0 <= e < |kinds| && (s.main.None? || e <= LineOf(s.main)) && Eligible(kinds, s, e) && kinds[e].declaresType
        ensures s.typ.Some? && LineOf(s.typ) <= e
      {
        if e < n {
          assert kinds[e] == init[e];
          assert s0.main.Some? ==> s == s0;
          assert s0.typ.Some? ==> s.typ == s0.typ;
          assert Eligible(init, s0, e);
        }
      }
    }
  }

  /** The `main` anchor starts at the first `public static void main` of the first eligible
      line that holds one, and the type line comes no later. */
  lemma {:induction false} MainLine(kinds: seq<Kind>)
    ensures var s := ScanKinds(kinds);
      s.main.Some? ==> (exists m :: 0 <= m < |kinds| && kinds[m].mainIdx >= 0
                                    && s.main.value == Range(Position(m, kinds[m].mainIdx), Position(m, kinds[m].length))
                                    && Eligible(kinds, s, m) && LineOf(s.typ) <= m
                                    && forall e :: 0 <= e < m && Eligible(kinds, s, e) ==> kinds[e].mainIdx < 0)
  {
    if kinds != [] {
      var n := |kinds| - 1;
      var init := kinds[..n];
      MainLine(init);
      NoMainYet(init);
      var s0 := ScanKinds(init);
      var s := ScanKinds(kinds);
      assert forall e :: 0 <= e < n ==> kinds[e] == init[e];
      if s0.main.Some? {
        var m :| 0 <= m < |init| && init[m].mainIdx >= 0
                 && s0.main.value == Range(Position(m, init[m].mainIdx), Position(m, init[m].length))
                 && Eligible(init, s0, m) && LineOf(s0.typ) <= m
                 && forall e :: 0 <= e < m && Eligible(init, s0, e) ==> init[e].mainIdx < 0;
        assert s == s0;
        assert forall e :: 0 <= e < m && Eligible(kinds, s, e) ==> Eligible(init, s0, e);
      } else if s.main.Some? {
        assert s.directive == s0.directive;
        assert forall e :: 0 <= e < n && Eligible(kinds, s, e) ==> Eligible(init, s0, e);
      }
    }
  }

  /** Until `main` is found, no eligible line scanned held `public static void main`. */
  lemma {:induction false} NoMainYet(kinds: seq<Kind>)
    ensures var s := ScanKinds(kinds);
      s.main.None? ==> forall e :: 0 <= e < |kinds| && Eligible(kinds, s, e) ==> kinds[e].mainIdx < 0
  {
    if kinds != [] {
      var n := |kinds| - 1;
      var init := kinds[..n];
      NoMainYet(init);
      var s0 := ScanKinds(init);
      var s := ScanKinds(kinds);
      if s.main.None? {
        assert forall e :: 0 <= e < n ==> kinds[e] == init[e];
        assert forall e :: 0 <= e < n && Eligible(kinds, s, e) ==> Eligible(init, s0, e);
      }
    }
  }

  /** On lines free of line terminators, the type anchor never lies on a directive line:
      the first directive line is skipped, and every later one is a comment. */
  lemma TypeLineIsNoDirective(lines: seq<string>)
    requires forall k :: 0 <= k < |lines| ==> NoLineTerminator(lines[k])
    ensures var s := ScanKinds(Kinds(lines));
      s.typ.Some? ==> 0 <= LineOf(s.typ) < |lines| && !JBangUtils.IsJBangDirective(lines[LineOf(s.typ)])
  {
    var kinds := Kinds(lines);
    TypeLine(kinds);
    var s := ScanKinds(kinds);
    if s.typ.Some? {
      var t :| 0 <= t < |kinds| && s.typ.value == LineRange(t, kinds[t])
               && kinds[t].declaresType && Eligible(kinds, s, t)
               && forall e :: 0 <= e < t && Eligible(kinds, s, e) ==> !kinds[e].declaresType;
      assert !IsComment(lines[t]);
      if JBangUtils.IsJBangDirective(lines[t]) {
        DirectiveIsComment(lines[t]);
      }
    }
  }

  /** Run and debug at `anchor`, when there is one. */
  function PairAt(anchor: Option<Range>): seq<Lens> {
    if anchor.Some? then [Lens(anchor.value, RUN), Lens(anchor.value, DEBUG)] else []
  }

  /** The synchronize lens is shown for Java and JBang documents with a directive line. */
  predicate Synchronizes(s: Scan, languageId: string) {
    s.directive.Some? && (languageId == "java" || languageId == "jbang")
  }

  /** The lenses for a scan: synchronize at the directive line; run and debug at the type,
      then at `main`; and a lone run lens at the directive line when nothing else is shown. */
  function LensesFor(s: Scan, languageId: string): (r: seq<Lens>)
    ensures r == [] <==> s.directive.None? && s.typ.None? && s.main.None?
    ensures forall l :: l in r ==> Some(l.range) in {s.directive, s.typ, s.main}
  {
    (if Synchronizes(s, languageId) then [Lens(s.directive.value, SYNCHRONIZE)] else [])
    + PairAt(s.typ) + PairAt(s.main)
    + (if s.directive.Some? && s.typ.None? && s.main.None? && !Synchronizes(s, languageId)
       then [Lens(s.directive.value, RUN)] else [])
  }

  /** The pushes of `provideCodeLenses` once the scan is done. */
  method PlaceLenses(s: Scan, languageId: string) returns (codelenses: seq<Lens>)
    ensures codelenses == LensesFor(s, languageId)
  {
    codelenses := [];
    if s.directive.Some? && (languageId == "java" || languageId == "jbang") {
      codelenses := codelenses + [Lens(s.directive.value, SYNCHRONIZE)];
    }
    if s.typ.Some? || s.main.Some? || s.directive.Some? {
      if s.typ.Some? {
        codelenses := codelenses + [Lens(s.typ.value, RUN)];
        codelenses := codelenses + [Lens(s.typ.value, DEBUG)];
      }
      if s.main.Some? {
        codelenses := codelenses + [Lens(s.main.value, RUN)];
        codelenses := codelenses + [Lens(s.main.value, DEBUG)];
      }
      if |codelenses| == 0 && s.directive.Some? {
        codelenses := codelenses + [Lens(s.directive.value, RUN)];
      }
    }
  }

  /** `provideCodeLenses(document)` for a document with language `languageId` and text
      `text`. */
  method ProvideCodeLenses(text: string, languageId: string) returns (codelenses: seq<Lens>)
    ensures languageId != "jbang" && !JBangUtils.IsJBangFile(JBangUtils.Lines(SplitLines(text))) ==> codelenses == []
    ensures languageId == "jbang" || JBangUtils.IsJBangFile(JBangUtils.Lines(SplitLines(text))) ==>
      codelenses == LensesFor(ScanKinds(Kinds(SplitLines(text))), languageId)
  {
    var lines := SplitLines(text);
    var isJBangScript := languageId == "jbang" || JBangUtils.IsJBangFile(JBangUtils.Lines(lines));
    if !isJBangScript {
      return [];
    }
    var s := ScanDocument(lines);
    codelenses := PlaceLenses(s, languageId);
  }

  /** The synchronize lens sits only at the directive line, and only for Java and JBang. */
  lemma SynchronizeOnlyAtDirective(s: Scan, languageId: string)
    ensures forall l :: l in LensesFor(s, languageId) && l.command == SYNCHRONIZE ==>
      s.directive == Some(l.range) && (languageId == "java" || languageId == "jbang")
    ensures Synchronizes(s, languageId) ==> LensesFor(s, languageId)[0] == Lens(s.directive.value, SYNCHRONIZE)
  {
  }

  /** A Java or JBang script with a directive but neither type nor `main` gets only the
      synchronize lens and no run lens; in another language it gets the lone run lens. */
  lemma DirectiveOnly(s: Scan, languageId: string)
    requires s.directive.Some? && s.typ.None? && s.main.None?
    ensures languageId == "java" || languageId == "jbang" ==>
      LensesFor(s, languageId) == [Lens(s.directive.value, SYNCHRONIZE)]
    ensures !(languageId == "java" || languageId == "jbang") ==>
      LensesFor(s, languageId) == [Lens(s.directive.value, RUN)]
  {
  }

  /** Run and debug come in pairs at the type and at `main`, in that order, after the
      synchronize lens. */
  lemma PairsInOrder(s: Scan, languageId: string)
    requires s.typ.Some? && s.main.Some?
    ensures var k := if Synchronizes(s, languageId) then 1 else 0;
      var lenses := LensesFor(s, languageId);
      |lenses| == k + 4
      && lenses[k] == Lens(s.typ.value, RUN) && lenses[k + 1] == Lens(s.typ.value, DEBUG)
      && lenses[k + 2] == Lens(s.main.value, RUN) && lenses[k + 3] == Lens(s.main.value, DEBUG)
  {
  }
}
