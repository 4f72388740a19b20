/** Pasting Maven `<dependency>` XML into a JBang script: the dependencies become `//DEPS`
    lines, offered as a paste edit on an empty line or one that begins a `//DEPS`. */
module DependencyPasteEditProvider {
  import opened Wrappers
  import opened Text
  import opened Editor
  import JBangUtils
  import Dependencies
  import Search

  const DEPS_PREFIX: string := "//DEPS"
  const XML_DEPENDENCY_TAGS: seq<string> := ["<dependency>", "<dependencies>", "<dependencyManagement>"]
  const PASTE_TITLE: string := "Paste as JBang //DEPS"

  /** A `<dependency>` element as the XML parser gives it; every child may be missing. */
  datatype MavenDependency = MavenDependency(groupId: Option<string>, artifactId: Option<string>,
                                             version: Option<string>, typ: Option<string>)

  /** What the parser finds under the dependency tags: one element or several. */
  datatype Parsed = One(dependency: MavenDependency) | Many(dependencies: seq<MavenDependency>)

  /** The paste edit offered: the text inserted and its title. */
  datatype PasteEdit = PasteEdit(insertText: string, title: string)

  /** A field is truthy when present and not empty. */
  predicate Truthy(field: Option<string>) {
    field.Some? && field.value != ""
  }

  /** `toJBangDependency(dependency)`: undefined without a group or an artifact; otherwise
      `//DEPS g:a:v`, the version `LATEST` when absent, and `@pom` for a POM. */
  function ToJBangDependency(d: MavenDependency): (r: Option<string>)
    ensures r.Some? <==> Truthy(d.groupId) && Truthy(d.artifactId)
    ensures r.Some? ==> StartsWith(r.value, DEPS_PREFIX + " ")
  {
    if !Truthy(d.groupId) || !Truthy(d.artifactId) then None
    else
      var version := if d.version.Some? then d.version.value else "LATEST";
      var suffix := if d.typ == Some("pom") then "@pom" else "";
      var head := DEPS_PREFIX + " ";
      var line := head + (d.groupId.value + ":" + d.artifactId.value + ":" + version + suffix);
      StartsWithAppend(head, d.groupId.value + ":" + d.artifactId.value + ":" + version + suffix);
      Some(line)
  }

  /** The version printed: the given one, `LATEST` only when it is missing. */
  function PrintedVersion(d: MavenDependency): string {
    (if d.version.Some? then d.version.value else "LATEST") + (if d.typ == Some("pom") then "@pom" else "")
  }

  /** After `//DEPS ` comes a coordinate that the extension's own parser reads back as the
      group, the artifact and the printed version, when none of them holds a `:`. */
  lemma ToJBangDependencyParses(d: MavenDependency)
    requires Truthy(d.groupId) && Truthy(d.artifactId)
    requires ':' !in d.groupId.value && ':' !in d.artifactId.value && ':' !in PrintedVersion(d)
    ensures var line := ToJBangDependency(d).value;
      Dependencies.GetDependency(line[|DEPS_PREFIX + " "|..])
      == Some(Dependencies.Dependency(d.groupId, d.artifactId, Some(PrintedVersion(d)), None))
  {
    var g, a, v := d.groupId.value, d.artifactId.value, PrintedVersion(d);
    var head := DEPS_PREFIX + " ";
    var coordinate := g + ":" + a + ":" + v;
    assert ToJBangDependency(d).value == head + coordinate;
    assert (head + coordinate)[|head|..] == coordinate;
    Search.ThreeParts(g, a, v);
  }

  /** `dependencies.map(toJBangDependency).filter(Boolean)` */
  function Converted(dependencies: seq<MavenDependency>): (r: seq<string>)
    ensures |r| <= |dependencies|
    ensures forall k :: 0 <= k < |r| ==> StartsWith(r[k], DEPS_PREFIX + " ")
  {
    if dependencies == [] then []
    else
      var rest := Converted(dependencies[1..]);
      match ToJBangDependency(dependencies[0])
      case None => rest
      case Some(line) => [line] + rest
  }

  /** The elements converted are exactly those with a group and an artifact, in order. */
  lemma {:induction false} ConvertedKeepsComplete(dependencies: seq<MavenDependency>)
    ensures |Converted(dependencies)| == |Complete(dependencies)|
    ensures forall k :: 0 <= k < |Complete(dependencies)| ==>
      Converted(dependencies)[k] == ToJBangDependency(Complete(dependencies)[k]).value
  {
    if dependencies != [] {
      ConvertedKeepsComplete(dependencies[1..]);
    }
  }

  /** The elements that have a group and an artifact. */
  function Complete(dependencies: seq<MavenDependency>): (r: seq<MavenDependency>)
    ensures forall k :: 0 <= k < |r| ==> Truthy(r[k].groupId) && Truthy(r[k].artifactId)
  {
    if dependencies == [] then []
    else
      var d := dependencies[0];
      (if Truthy(d.groupId) && Truthy(d.artifactId) then [d] else []) + Complete(dependencies[1..])
  }

  /** `convertDependencies(dependencies)`: a list gives its converted elements one per line,
      or undefined when none converts; a single element converts on its own. */
  function ConvertDependencies(parsed: Parsed): (r: Option<string>)
    ensures parsed.One? ==> r == ToJBangDependency(parsed.dependency)
    ensures parsed.Many? ==> (r.None? <==> Converted(parsed.dependencies) == [])
    ensures r.Some? ==> StartsWith(r.value, DEPS_PREFIX + " ")
  {
    match parsed
    case One(d) => ToJBangDependency(d)
    case Many(ds) =>
      var deps := Converted(ds);
      if |deps| == 0 then None
      else
        JoinStartsWithFirst(deps, "\n");
        Some(Join(deps, "\n"))
  }

  lemma JoinStartsWithFirst(parts: seq<string>, sep: string)
    requires |parts| >= 1
    ensures StartsWith(Join(parts, sep), parts[0])
  {
    if |parts| > 1 {
      StartsWithAppend(parts[0], sep + Join(parts[1..], sep));
      assert parts[0] + sep + Join(parts[1..], sep) == parts[0] + (sep + Join(parts[1..], sep));
    }
  }

  /** Pasting a list gives one `//DEPS` line per element that converts, in order, when no
      field holds a line break. */
  lemma ManyOnePerLine(dependencies: seq<MavenDependency>)
    requires Converted(dependencies) != []
    requires forall k :: 0 <= k < |Converted(dependencies)| ==> '\n' !in Converted(dependencies)[k]
    ensures Split(ConvertDependencies(Many(dependencies)).value, '\n') == Converted(dependencies)
  {
    SplitJoin(Converted(dependencies), '\n');
  }

  /** `XML_DEPENDENCY_TAGS.some(tag => pastedText.startsWith(tag))` */
  predicate StartsWithTag(pastedText: string) {
    exists k | 0 <= k < |XML_DEPENDENCY_TAGS| :: StartsWith(pastedText, XML_DEPENDENCY_TAGS[k])
  }

  /** The line pasted on accepts the edit: after trimming its end it is empty or a prefix
      of `//DEPS`. */
  predicate AcceptsLine(targetLine: string) {
    |targetLine| == 0 || StartsWith(DEPS_PREFIX, targetLine)
  }

  /** The text inserted: the converted dependencies without the part the line already holds. */
  function Stripped(converted: string, targetLine: string): (r: string)
    ensures StartsWith(converted, targetLine) ==> targetLine + r == converted
    ensures !StartsWith(converted, targetLine) ==> r == converted
  {
    if StartsWith(converted, targetLine) then
      var r := converted[|targetLine|..];
      assert converted == converted[..|targetLine|] + r;
      r
    else converted
  }

  /** The text offered for pasting `pastedText` (already trimmed) on a line reading
      `targetLine` once its end is trimmed; `xml` is what the XML parser finds as
      `dependency`, `dependencies.dependency` or `dependencyManagement.dependencies.dependency`
      (`None` when none of them). */
  function EditFor(targetLine: string, pastedText: string, xml: Option<Parsed>): Option<string> {
    if !AcceptsLine(targetLine) || !StartsWithTag(pastedText) || xml.None? then None
    else
      var converted := ConvertDependencies(xml.value);
      if converted.None? then None else Some(Stripped(converted.value, targetLine))
  }

  /** Whenever an edit is offered, the line pasted on followed by the edit reads exactly as
      the converted dependencies: a typed `//DE` is completed, not repeated. */
  lemma LinePlusEditIsConverted(targetLine: string, pastedText: string, xml: Option<Parsed>)
    requires EditFor(targetLine, pastedText, xml).Some?
    ensures xml.Some? && ConvertDependencies(xml.value).Some?
    ensures targetLine + EditFor(targetLine, pastedText, xml).value == ConvertDependencies(xml.value).value
  {
    var converted := ConvertDependencies(xml.value).value;
    if |targetLine| > 0 {
      StartsWithTrans(converted, targetLine, DEPS_PREFIX);
    }
  }

  /** `provideDocumentPasteEdits(document, ranges, dataTransfer, context, token)`: `text` is
      the document, `ranges` the ranges pasted over, `clipboard` the plain text pasted
      (`None` when there is none) and `cancelled` whether the request was cancelled. */
  method ProvideDocumentPasteEdits(text: string, ranges: seq<Range>, clipboard: Option<string>, cancelled: bool,
                                   xml: Option<Parsed>)
    returns (r: Option<seq<PasteEdit>>)
    requires |ranges| == 1 ==> ranges[0].start.line < |SplitLines(text)|
    ensures !JBangUtils.IsJBangFile(JBangUtils.Whole(text)) || clipboard.None? ==> r.None?
    ensures clipboard.Some? && (Trim(clipboard.value) == "" || cancelled || |ranges| != 1) ==> r.None?
    ensures JBangUtils.IsJBangFile(JBangUtils.Whole(text)) && clipboard.Some?
            && Trim(clipboard.value) != "" && !cancelled && |ranges| == 1 ==>
      var t := EditFor(TrimEnd(SplitLines(text)[ranges[0].start.line]), Trim(clipboard.value), xml);
      (t.None? ==> r.None?) && (t.Some? ==> r == Some([PasteEdit(t.value, PASTE_TITLE)]))
  {
    if !JBangUtils.IsJBangFile(JBangUtils.Whole(text)) {
      return None;
    }
    if clipboard.None? {
      return None;
    }
    var pastedText := Trim(clipboard.value);
    if pastedText == "" || cancelled || |ranges| != 1 {
      return None;
    }
    var line := ranges[0].start.line;
    var targetLine := TrimEnd(SplitLines(text)[line]);
    r := PasteOnLine(targetLine, pastedText, xml);
  }

  /** The rest of `provideDocumentPasteEdits` once the line pasted on is known. */
  method PasteOnLine(targetLine: string, pastedText: string, xml: Option<Parsed>) returns (r: Option<seq<PasteEdit>>)
    ensures var t := EditFor(targetLine, pastedText, xml);
      (t.None? ==> r.None?) && (t.Some? ==> r == Some([PasteEdit(t.value, PASTE_TITLE)]))
  {
    if |targetLine| > 0 && !StartsWith(DEPS_PREFIX, targetLine) {
      return None;
    }
    if !StartsWithTag(pastedText) || xml.None? {
      return None;
    }
    var jbangDependencies := ConvertDependencies(xml.value);
    if jbangDependencies.None? {
      return None;
    }
    var inserted := jbangDependencies.value;
    if StartsWith(inserted, targetLine) {
      inserted := inserted[|targetLine|..];
    }
    return Some([PasteEdit(inserted, PASTE_TITLE)]);
  }
}
