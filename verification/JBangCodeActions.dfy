/** Quick fixes for unresolved imports in a JBang script: each Java diagnostic about an
    import that cannot be resolved offers to find the dependency of the missing class. */
module JBangCodeActions {
  import opened Wrappers
  import opened Text
  import opened Editor
  import Arrays
  import JBangUtils

  /** The ECJ problem id of an import that cannot be resolved. */
  const UNRESOLVED_IMPORT: string := "268435846"

  /** `/import (.*) cannot be resolved/` and `/package (.*) does not exist/`: the text
      before and after the captured group. */
  const IMPORT_BEFORE: string := "import "
  const IMPORT_AFTER: string := " cannot be resolved"
  const PACKAGE_BEFORE: string := "package "
  const PACKAGE_AFTER: string := " does not exist"

  /** A diagnostic as the Java language server reports it; `code` and `ecjProblemId`
      (`data.ecjProblemId`) are missing when they are not strings. */
  datatype Diagnostic = Diagnostic(source: Option<string>, code: Option<string>, ecjProblemId: Option<string>,
                                   message: string, range: Range)

  /** The quick fix offered: its title, the command arguments (the document and the missing
      class) and the diagnostic it fixes. */
  datatype CodeAction = CodeAction(title: string, uri: string, missingClass: string, diagnostic: Diagnostic)

  /** `w` occurs in `s` at `i`. */
  predicate Occurs(s: string, i: nat, w: string) {
    i + |w| <= |s| && s[i..i + |w|] == w
  }

  /** `before (.*) after` matches `s` from `p`, the group ending at `q`: `.` takes every
      character but a line terminator. */
  predicate MatchesAt(s: string, before: string, after: string, p: nat, q: nat) {
    Occurs(s, p, before) && p + |before| <= q && Occurs(s, q, after) && NoLineTerminator(s[p + |before|..q])
  }

  /** The end of the line holding `a`: the first line terminator from `a` on, or the end. */
  function LineEnd(s: string, a: nat): (e: nat)
    requires a <= |s|
    ensures a <= e <= |s| && (e < |s| ==> IsLineTerminator(s[e]))
    ensures forall i :: a <= i < e ==> !IsLineTerminator(s[i])
    decreases |s| - a
  {
    if a == |s| || IsLineTerminator(s[a]) then a else LineEnd(s, a + 1)
  }

  /** The group may end at `q` exactly when no line terminator comes before it. */
  lemma GroupEnds(s: string, a: nat, q: nat)
    requires a <= q <= |s|
    ensures NoLineTerminator(s[a..q]) <==> q <= LineEnd(s, a)
  {
    var e := LineEnd(s, a);
    if q > e {
      assert s[a..q][e - a] == s[e];
    }
  }

  /** The last occurrence of `w` starting in `[a, q]`. */
  function LastOccurrence(s: string, w: string, a: nat, q: nat): (r: Option<nat>)
    ensures r.Some? ==> a <= r.value <= q && Occurs(s, r.value, w)
    ensures r.Some? ==> forall i :: r.value < i <= q ==> !Occurs(s, i, w)
    ensures r.None? ==> forall i :: a <= i <= q ==> !Occurs(s, i, w)
    decreases q
  {
    if q < a then None
    else if Occurs(s, q, w) then Some(q)
    else if q == a then None
    else LastOccurrence(s, w, a, q - 1)
  }

  /** The first match of `before (.*) after` starting at `p` or later, as its start and the
      end of its group: the leftmost start, and for it the longest group, as a backtracking
      engine finds them. */
  function FirstMatch(s: string, before: string, after: string, p: nat): (r: Option<(nat, nat)>)
    requires p <= |s|
    ensures r.Some? ==> p <= r.value.0 && MatchesAt(s, before, after, r.value.0, r.value.1)
    ensures r.Some? ==> forall i, j :: p <= i < r.value.0 ==> !MatchesAt(s, before, after, i, j)
    ensures r.Some? ==> forall j :: r.value.1 < j ==> !MatchesAt(s, before, after, r.value.0, j)
    ensures r.None? ==> forall i, j :: p <= i ==> !MatchesAt(s, before, after, i, j)
    decreases |s| - p
  {
    var here := if Occurs(s, p, before) then LastOccurrence(s, after, p + |before|, LineEnd(s, p + |before|)) else None;
    if here.Some? then
      GroupEnds(s, p + |before|, here.value);
      assert forall j :: here.value < j ==> !MatchesAt(s, before, after, p, j) by {
        forall j | here.value < j && MatchesAt(s, before, after, p, j) ensures false {
          GroupEnds(s, p + |before|, j);
        }
      }
      Some((p, here.value))
    else
      assert forall j :: !MatchesAt(s, before, after, p, j) by {
        forall j | MatchesAt(s, before, after, p, j) ensures false {
          GroupEnds(s, p + |before|, j);
        }
      }
      if p == |s| then
        assert forall i: nat :: p < i ==> !Occurs(s, i, before);
        None
      else FirstMatch(s, before, after, p + 1)
  }

  /** `s.match(/before(.*)after/)[1]`: the captured group, or `None` when there is no match. */
  function Capture(s: string, before: string, after: string): (r: Option<string>)
    ensures r.None? <==> forall i, j :: !MatchesAt(s, before, after, i, j)
  {
    match FirstMatch(s, before, after, 0)
    case None => None
    case Some((p, q)) => Some(s[p + |before|..q])
  }

  /** A message that reads `u + before + x + after`, with no match of `before` starting in
      `u` and no line break in `x`, captures exactly `x`, whatever `x` itself contains. */
  lemma CaptureRoundTrip(u: string, before: string, x: string, after: string)
    requires NoLineTerminator(x)
    requires forall i :: 0 <= i < |u| ==> !Occurs(u + before + x + after, i, before)
    ensures Capture(u + before + x + after, before, after) == Some(x)
  {
    var s := u + before + x + after;
    var p, q := |u|, |u| + |before| + |x|;
    assert s[p..p + |before|] == before;
    assert s[q..q + |after|] == after;
    assert s[p + |before|..q] == x;
    assert MatchesAt(s, before, after, p, q);
    var m := FirstMatch(s, before, after, 0);
    assert m.Some?;
    assert m.value.0 == p;
  }

  /** The two message shapes of the Java compiler are read as intended. */
  lemma CompilerMessages(x: string)
    requires NoLineTerminator(x)
    ensures Capture("The import " + x + IMPORT_AFTER, IMPORT_BEFORE, IMPORT_AFTER) == Some(x)
    ensures Capture("The package " + x + PACKAGE_AFTER, PACKAGE_BEFORE, PACKAGE_AFTER) == Some(x)
  {
    var s := "The " + IMPORT_BEFORE + x + IMPORT_AFTER;
    assert s == "The import " + x + IMPORT_AFTER;
    forall i | 0 <= i < 4 ensures !Occurs(s, i, IMPORT_BEFORE) {
      assert s[i] == "The "[i];
    }
    CaptureRoundTrip("The ", IMPORT_BEFORE, x, IMPORT_AFTER);
    var t := "The " + PACKAGE_BEFORE + x + PACKAGE_AFTER;
    assert t == "The package " + x + PACKAGE_AFTER;
    forall i | 0 <= i < 4 ensures !Occurs(t, i, PACKAGE_BEFORE) {
      assert t[i] == "The "[i];
    }
    CaptureRoundTrip("The ", PACKAGE_BEFORE, x, PACKAGE_AFTER);
  }

  /** Where the missing class ends: at the line's first `;` when that lies after `start`,
      otherwise at the end of the line. */
  function ClassEnd(importLine: string, start: nat): (e: nat)
    ensures e <= |importLine|
    ensures e < |importLine| ==> start < e && importLine[e] == ';' && forall k :: 0 <= k < e ==> importLine[k] != ';'
    ensures e == |importLine| ==> IndexOf(importLine, ";") <= start || IndexOf(importLine, ";") == |importLine|
  {
    var semiCol := IndexOf(importLine, ";");
    if semiCol > start && semiCol < |importLine| then
      FirstSemicolon(importLine, semiCol);
      semiCol
    else |importLine|
  }

  lemma FirstSemicolon(line: string, semiCol: nat)
    requires semiCol < |line| && semiCol == IndexOf(line, ";")
    ensures line[semiCol] == ';' && forall k :: 0 <= k < semiCol ==> line[k] != ';'
  {
    assert StartsWith(line[semiCol..], ";");
    forall k | 0 <= k < semiCol ensures line[k] != ';' {
      assert !StartsWith(line[k..], ";");
    }
  }

  /** `r` is `line[i..i + |r|]`, and only blanks lie between `a` and `i` and between the end
      of `r` and `b`. */
  predicate TrimmedSlice(line: string, a: nat, b: nat, i: nat, r: string) {
    && a <= i && i + |r| <= b <= |line| && line[i..i + |r|] == r
    && (forall k :: a <= k < i ==> IsWhitespace(line[k]))
    && (forall k :: i + |r| <= k < b ==> IsWhitespace(line[k]))
  }

  /** Trimming `line[a..b]` leaves a slice of the line with only blanks around it. */
  lemma TrimIsSlice(line: string, a: nat, b: nat)
    requires a <= b <= |line|
    ensures exists i :: TrimmedSlice(line, a, b, i, Trim(line[a..b]))
  {
    var slice := line[a..b];
    var trimmed := TrimStart(slice);
    var r := TrimEnd(trimmed);
    var i := a + (|slice| - |trimmed|);
    SliceOfSlice(line, a, b, i);
    assert trimmed == line[i..b];
    BlanksBefore(line, a, b, slice, trimmed);
    BlanksAfter(line, i, b, trimmed, r);
    assert Trim(slice) == r;
    assert TrimmedSlice(line, a, b, i, r);
  }

  lemma SliceOfSlice(line: string, a: nat, b: nat, i: nat)
    requires a <= i <= b <= |line|
    ensures line[a..b][i - a..] == line[i..b]
  {
  }

  lemma BlanksBefore(line: string, a: nat, b: nat, slice: string, trimmed: string)
    requires a <= b <= |line| && slice == line[a..b] && trimmed == TrimStart(slice)
    ensures forall k :: a <= k < a + (|slice| - |trimmed|) ==> IsWhitespace(line[k])
  {
    forall k | a <= k < a + (|slice| - |trimmed|) ensures IsWhitespace(line[k]) {
      assert line[k] == slice[k - a];
    }
  }

  lemma BlanksAfter(line: string, i: nat, b: nat, trimmed: string, r: string)
    requires i <= b <= |line| && trimmed == line[i..b] && r == TrimEnd(trimmed)
    ensures line[i..i + |r|] == r
    ensures forall k :: i + |r| <= k < b ==> IsWhitespace(line[k])
  {
    assert r == trimmed[..|r|];
    forall k | i + |r| <= k < b ensures IsWhitespace(line[k]) {
      assert line[k] == trimmed[k - i];
    }
  }

  /** The missing class on the line of the diagnostic: the text from the diagnostic's start
      column to `ClassEnd`, without its surrounding blanks. */
  function MissingClass(importLine: string, start: nat): (r: string)
    ensures r == [] || (!IsWhitespace(r[0]) && !IsWhitespace(r[|r| - 1]))
    ensures start > |importLine| ==> r == []
    ensures start <= |importLine| ==> exists i :: TrimmedSlice(importLine, start, ClassEnd(importLine, start), i, r)
    ensures IndexOf(importLine, ";") > start ==> ';' !in r
  {
    var end := ClassEnd(importLine, start);
    var slice := Substring(importLine, start, end);
    var r := Trim(slice);
    TrimmedEnds(slice);
    if start <= |importLine| then
      assert slice == importLine[start..end];
      TrimIsSlice(importLine, start, end);
      SemicolonFree(importLine, start, end, r);
      r
    else
      assert slice == [];
      r
  }

  /** A trimmed slice that ends at `ClassEnd` holds no semicolon when the line has one after `start`. */
  lemma SemicolonFree(line: string, start: nat, end: nat, r: string)
    requires end == ClassEnd(line, start)
    requires exists i :: TrimmedSlice(line, start, end, i, r)
    ensures IndexOf(line, ";") > start ==> ';' !in r
  {
    if IndexOf(line, ";") > start {
      var i: nat :| TrimmedSlice(line, start, end, i, r);
      assert end < |line|;
      forall k | 0 <= k < |r| ensures r[k] != ';' {
        assert r[k] == line[i + k];
      }
    }
  }

  lemma TrimmedEnds(s: string)
    ensures Trim(s) == [] || (!IsWhitespace(Trim(s)[0]) && !IsWhitespace(Trim(s)[|Trim(s)| - 1]))
  {
    var t := TrimStart(s);
    assert Trim(s) == [] || Trim(s)[0] == t[0];
  }

  /** On a line `head + cls + ";" + rest`, a diagnostic starting where `cls` begins names
      `cls` when it has no `;` and no surrounding blanks, and no `;` comes before it. */
  lemma ImportLineClass(head: string, cls: string, rest: string)
    requires cls != [] && !IsWhitespace(cls[0]) && !IsWhitespace(cls[|cls| - 1])
    requires ';' !in head && ';' !in cls
    ensures MissingClass(head + cls + ";" + rest, |head|) == cls
  {
    var line := head + cls + ";" + rest;
    var k := |head| + |cls|;
    assert StartsWith(line[k..], ";");
    forall i | 0 <= i < k ensures !StartsWith(line[i..], ";") {
      assert line[i] == (head + cls)[i];
    }
    assert IndexOf(line, ";") == k;
    assert line[|head|..k] == cls;
  }

  /** The diagnostics the quick fix applies to: from `Java`, with the unresolved import
      code either as `code` or as `data.ecjProblemId`. */
  predicate Qualifies(d: Diagnostic) {
    d.source == Some("Java") && (d.code == Some(UNRESOLVED_IMPORT) || d.ecjProblemId == Some(UNRESOLVED_IMPORT))
  }

  /** The title of the quick fix for `missingClass`. */
  function Title(missingClass: string): string {
    "Find '" + missingClass + "' dependency..."
  }

  /** The captured group of the diagnostic's message: the import shape when `code` is the
      unresolved import code, the package shape otherwise. */
  function CapturedName(d: Diagnostic): Option<string> {
    if d.code == Some(UNRESOLVED_IMPORT) then Capture(d.message, IMPORT_BEFORE, IMPORT_AFTER)
    else Capture(d.message, PACKAGE_BEFORE, PACKAGE_AFTER)
  }

  /** `createCommandCodeAction(diagnostic, document)`: `lines` are the lines of the document. A
      fix is made only when the message captures a non-empty group and the missing class read
      from the line is not empty. */
  function CreateCommandCodeAction(d: Diagnostic, lines: seq<string>, uri: string): (r: Option<CodeAction>)
    requires d.range.start.line < |lines|
    ensures r.Some? ==> r.value.missingClass != "" && r.value.title == Title(r.value.missingClass)
                        && r.value.uri == uri && r.value.diagnostic == d
  {
    var captured := CapturedName(d);
    if captured.None? || captured.value == "" then None
    else
      var missingClass := MissingClass(lines[d.range.start.line], d.range.start.character);
      if missingClass == "" then None
      else Some(CodeAction(Title(missingClass), uri, missingClass, d))
  }

  /** A fix is made exactly when the message captures a non-empty group and the class read
      from the line is not empty, and it names that class. */
  lemma FixMadeIff(d: Diagnostic, lines: seq<string>, uri: string)
    requires d.range.start.line < |lines|
    ensures var r := CreateCommandCodeAction(d, lines, uri);
      var missingClass := MissingClass(lines[d.range.start.line], d.range.start.character);
      && (r.Some? <==> CapturedName(d).Some? && CapturedName(d).value != "" && missingClass != "")
      && (r.Some? ==> r.value.missingClass == missingClass)
  {
  }

  /** Every qualifying diagnostic lies within the document (`lineAt` fails otherwise). */
  predicate InDocument(diagnostics: seq<Diagnostic>, lines: seq<string>) {
    forall k :: 0 <= k < |diagnostics| && Qualifies(diagnostics[k]) ==> diagnostics[k].range.start.line < |lines|
  }

  /** The values of the defined elements, in order: `.filter(ca => ca !== undefined)`. */
  function Defined(opts: seq<Option<CodeAction>>): (r: seq<CodeAction>)
    ensures |r| <= |opts|
    ensures forall a :: a in r <==> Some(a) in opts
  {
    if opts == [] then []
    else
      var rest := Defined(opts[1..]);
      assert forall a :: Some(a) in opts <==> Some(a) == opts[0] || Some(a) in opts[1..];
      match opts[0]
      case None => rest
      case Some(a) => [a] + rest
  }

  /** `unresolvedTypes.map(createCommandCodeAction).filter(ca => ca !== undefined)` */
  function Actions(diagnostics: seq<Diagnostic>, lines: seq<string>, uri: string): (r: seq<CodeAction>)
    requires forall k :: 0 <= k < |diagnostics| ==> diagnostics[k].range.start.line < |lines|
    ensures |r| <= |diagnostics|
    ensures forall a :: a in r <==> exists k :: 0 <= k < |diagnostics|
                                     && CreateCommandCodeAction(diagnostics[k], lines, uri) == Some(a)
  {
    var made := Made(diagnostics, lines, uri);
    var r := Defined(made);
    assert forall a :: a in r <==> exists k :: 0 <= k < |diagnostics| && CreateCommandCodeAction(diagnostics[k], lines, uri) == Some(a) by {
      forall a ensures a in r <==> exists k :: 0 <= k < |diagnostics| && CreateCommandCodeAction(diagnostics[k], lines, uri) == Some(a) {
        if a in r {
          var k :| 0 <= k < |made| && made[k] == Some(a);
        }
        if k :| 0 <= k < |diagnostics| && CreateCommandCodeAction(diagnostics[k], lines, uri) == Some(a) {
          assert made[k] == Some(a);
        }
      }
    }
    r
  }

  /** The fixes keep the order of the diagnostics: the fix for the first diagnostic, when
      one is made, comes before the fixes for the rest. */
  lemma ActionsInOrder(d: Diagnostic, ds: seq<Diagnostic>, lines: seq<string>, uri: string)
    requires d.range.start.line < |lines|
    requires forall k :: 0 <= k < |ds| ==> ds[k].range.start.line < |lines|
    ensures forall k :: 0 <= k < |[d] + ds| ==> ([d] + ds)[k].range.start.line < |lines|
    ensures Actions([d] + ds, lines, uri)
         == (match CreateCommandCodeAction(d, lines, uri) case Some(a) => [a] case None => [])
            + Actions(ds, lines, uri)
  {
    MadeTail(d, ds, lines, uri);
    DefinedCons(Made([d] + ds, lines, uri));
  }

  lemma MadeTail(d: Diagnostic, ds: seq<Diagnostic>, lines: seq<string>, uri: string)
    requires d.range.start.line < |lines|
    requires forall k :: 0 <= k < |ds| ==> ds[k].range.start.line < |lines|
    ensures forall k :: 0 <= k < |[d] + ds| ==> ([d] + ds)[k].range.start.line < |lines|
    ensures Made([d] + ds, lines, uri)[1..] == Made(ds, lines, uri)
  {
    var all := [d] + ds;
    var m, t := Made(all, lines, uri), Made(ds, lines, uri);
    forall k | 0 <= k < |t| ensures m[1..][k] == t[k] {
      assert all[k + 1] == ds[k];
      assert m[k + 1] == t[k];
    }
  }

  lemma DefinedCons(opts: seq<Option<CodeAction>>)
    requires opts != []
    ensures Defined(opts) == (match opts[0] case Some(a) => [a] case None => []) + Defined(opts[1..])
  {
  }

  /** `unresolvedTypes.map(createCommandCodeAction)` */
  function Made(diagnostics: seq<Diagnostic>, lines: seq<string>, uri: string): (made: seq<Option<CodeAction>>)
    requires forall k :: 0 <= k < |diagnostics| ==> diagnostics[k].range.start.line < |lines|
    ensures |made| == |diagnostics|
    ensures forall k :: 0 <= k < |diagnostics| ==> made[k] == CreateCommandCodeAction(diagnostics[k], lines, uri)
  {
    seq(|diagnostics|, k requires 0 <= k < |diagnostics| => CreateCommandCodeAction(diagnostics[k], lines, uri))
  }

  /** The fixes for the qualifying diagnostics among `diagnostics`, in a JBang script whose
      lines are `lines`. */
  function QuickFixes(diagnostics: seq<Diagnostic>, lines: seq<string>, uri: string): (r: seq<CodeAction>)
    requires InDocument(diagnostics, lines)
    ensures (forall k :: 0 <= k < |diagnostics| ==> !Qualifies(diagnostics[k])) ==> r == []
    ensures forall a :: a in r ==> Qualifies(a.diagnostic) && a.diagnostic in diagnostics
                                   && a.missingClass != "" && a.title == Title(a.missingClass) && a.uri == uri
  {
    var unresolvedTypes := Arrays.Filter(diagnostics, Qualifies);
    if |unresolvedTypes| == 0 then []
    else
      assert forall k :: 0 <= k < |unresolvedTypes| ==> unresolvedTypes[k].range.start.line < |lines| by {
        forall k | 0 <= k < |unresolvedTypes| ensures unresolvedTypes[k].range.start.line < |lines| {
          var e :| 0 <= e < |diagnostics| && diagnostics[e] == unresolvedTypes[k];
        }
      }
      Actions(unresolvedTypes, lines, uri)
  }

  /** `provideCodeActions(document, range, context, token)`: `text` is the document,
      `supported` whether JBang supports it and `diagnostics` those of the context. Nothing
      is offered outside a supported JBang script. */
  function ProvideCodeActions(text: string, uri: string, diagnostics: seq<Diagnostic>, supported: bool): (r: seq<CodeAction>)
    requires InDocument(diagnostics, SplitLines(text))
    ensures !supported || !JBangUtils.IsJBangFile(JBangUtils.Whole(text)) ==> r == []
    ensures supported && JBangUtils.IsJBangFile(JBangUtils.Whole(text)) ==> r == QuickFixes(diagnostics, SplitLines(text), uri)
  {
    if !supported || !JBangUtils.IsJBangFile(JBangUtils.Whole(text)) then []
    else QuickFixes(diagnostics, SplitLines(text), uri)
  }

  /** Every qualifying diagnostic whose fix can be made gets it. */
  lemma EveryUnresolvedImportFixed(diagnostics: seq<Diagnostic>, lines: seq<string>, uri: string, k: nat)
    requires InDocument(diagnostics, lines)
    requires k < |diagnostics| && Qualifies(diagnostics[k])
    requires CreateCommandCodeAction(diagnostics[k], lines, uri).Some?
    ensures CreateCommandCodeAction(diagnostics[k], lines, uri).value in QuickFixes(diagnostics, lines, uri)
  {
    var unresolvedTypes := Arrays.Filter(diagnostics, Qualifies);
    assert diagnostics[k] in unresolvedTypes;
    var e :| 0 <= e < |unresolvedTypes| && unresolvedTypes[e] == diagnostics[k];
    assert forall i :: 0 <= i < |unresolvedTypes| ==> unresolvedTypes[i].range.start.line < |lines| by {
      forall i | 0 <= i < |unresolvedTypes| ensures unresolvedTypes[i].range.start.line < |lines| {
        var f :| 0 <= f < |diagnostics| && diagnostics[f] == unresolvedTypes[i];
      }
    }
    assert QuickFixes(diagnostics, lines, uri) == Actions(unresolvedTypes, lines, uri);
  }

  /** The usual case: an import `head + cls + ";"` reported as not resolved, from where `cls`
      begins, is fixed by finding the dependency of `cls`. */
  lemma UnresolvedImportOffersClass(d: Diagnostic, lines: seq<string>, uri: string, head: string, cls: string,
                                    rest: string, x: string)
    requires d.code == Some(UNRESOLVED_IMPORT) && d.message == "The import " + x + IMPORT_AFTER
    requires x != "" && NoLineTerminator(x)
    requires d.range.start.line < |lines| && lines[d.range.start.line] == head + cls + ";" + rest
    requires d.range.start.character == |head|
    requires cls != [] && !IsWhitespace(cls[0]) && !IsWhitespace(cls[|cls| - 1])
    requires ';' !in head && ';' !in cls
    ensures CreateCommandCodeAction(d, lines, uri) == Some(CodeAction(Title(cls), uri, cls, d))
  {
    FixMadeIff(d, lines, uri);
    CompilerMessages(x);
    ImportLineClass(head, cls, rest);
  }
}
